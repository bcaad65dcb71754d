/** How paths below a restore's root resolve, when the root itself may be reached through links. */
module BackupPaths {
  import opened Prelude
  import opened Paths
  import opened FileSystem
  import opened Backup

  // ---- Paths without links ----

  lemma {:induction false} RealPath(fs: Files, p: Path, links: nat)
    requires TreeLike(fs) && p in fs && !fs[p].Link?
    ensures Resolve(fs, [], p, links) == Some(p)
    decreases |p|
  {
    hide Resolve, ResolveForCreate;
    if p == [] {
      ResolveNothing(fs, links);
    } else {
      RealPath(fs, Up(p), links);
      assert p == Up(p) + [p[|p| - 1]];
      ResolveSnoc(fs, [], Up(p), p[|p| - 1], links);
    }
  }

  lemma ResolveNothing(fs: Files, links: nat)
    ensures Resolve(fs, [], [], links) == Some([])
  {
  }

  lemma MissingPath(fs: Files, p: Path, links: nat)
    requires TreeLike(fs) && p != [] && p !in fs && IsDir(fs, Up(p)) && IsName(p[|p| - 1])
    ensures Resolve(fs, [], p, links) == None
    ensures ResolveForCreate(fs, [], p, links) == Some(p)
    ensures Lstat(fs, p) == None
  {
    hide Resolve, ResolveForCreate;
    RealPath(fs, Up(p), links);
    RealPath(fs, Up(p), KERNEL_LINKS);
    assert p == Up(p) + [p[|p| - 1]];
    ResolveSnoc(fs, [], Up(p), p[|p| - 1], links);
  }

  lemma NameParts(p: Path)
    requires AllNames(p) && p != []
    ensures !IsRooted(Join(p)) && CleanParts(Join(p)) == p && SafeName(Join(p))
  {
    hide Fold, SplitSlash, Join;
    assert Normal(false, p);
    CleanPartsOfShow(false, p);
  }

  lemma {:induction false} TreeNames(fs: Files, p: Path)
    requires TreeLike(fs) && p in fs
    ensures AllNames(p)
    decreases |p|
  {
    if p != [] {
      TreeNames(fs, Up(p));
    }
  }

  lemma {:induction false} PrefixIsDir(fs: Files, p: Path, k: nat)
    requires TreeLike(fs) && IsDir(fs, p) && k <= |p|
    ensures IsDir(fs, p[..k])
    decreases |p|
  {
    if k < |p| {
      assert Up(p)[..k] == p[..k];
      PrefixIsDir(fs, Up(p), k);
    } else {
      assert p[..k] == p;
    }
  }

  lemma SafeNameParts(name: string)
    requires SafeName(name)
    ensures AllNames(CleanParts(name)) && CleanParts(name) != []
  {
    hide Fold, SplitSlash;
    CleanIsNormal(name);
  }

  // ---- The root ----

  /** What the file system holds outside the inside of `base`. */
  function Outside(fs: Files, base: Path): Files {
    map q | q in fs && !(base < q) :: fs[q]
  }

  /** The root leads to the directory `base`, other than "/", without passing through anything below it. */
  predicate Leads(fs: Files, root: Path, base: Path) {
    base != [] && IsDir(fs, base) && Stat(Outside(fs, base), root) == Some(base)
  }

  predicate Home(fs: Files, root: Path, base: Path) {
    TreeLike(fs) && Leads(fs, root, base)
  }

  lemma RootResolves(fs: Files, root: Path, base: Path)
    requires Leads(fs, root, base)
    ensures Stat(fs, root) == Some(base) && EvalSymlinks(fs, root) == Some(base)
  {
    hide Resolve;
    assert Grows(Outside(fs, base), fs);
    ResolveGrows(Outside(fs, base), fs, [], root, KERNEL_LINKS);
    ResolveMoreLinks(fs, [], root, KERNEL_LINKS, EVAL_LINKS);
  }

  lemma SameOutside(fs: Files, fs': Files, base: Path)
    requires forall q: Path | !(base < q) :: Unchanged(fs, fs', q)
    ensures Outside(fs, base) == Outside(fs', base)
  {
    var a, b := Outside(fs, base), Outside(fs', base);
    forall q: Path ensures q in a <==> q in b {
      assert !(base < q) ==> Unchanged(fs, fs', q);
    }
    assert a.Keys == b.Keys;
    forall q | q in a ensures a[q] == b[q] {
      assert Unchanged(fs, fs', q);
    }
  }

  /** Whatever changes below the base, the root leads there. */
  lemma StillLeads(fs: Files, fs': Files, root: Path, base: Path)
    requires Leads(fs, root, base)
    requires forall q: Path | !(base < q) :: Unchanged(fs, fs', q)
    ensures Leads(fs', root, base)
  {
    hide Resolve;
    assert Unchanged(fs, fs', base);
    SameOutside(fs, fs', base);
  }

  /** A real directory leads to itself. */
  lemma RealRootLeads(fs: Files, root: Path)
    requires TreeLike(fs) && root != [] && IsDir(fs, root)
    ensures Leads(fs, root, root)
  {
    hide Resolve;
    var outside := Outside(fs, root);
    forall q | q in outside && q != [] ensures IsDir(outside, Up(q)) && IsName(q[|q| - 1]) {
      assert IsDir(fs, Up(q));
      assert root < Up(q) ==> root < q;
    }
    RealPath(outside, root, KERNEL_LINKS);
  }

  // ---- Below the root ----

  /** A real path below the base, spelled from the root. */
  lemma {:induction false} Through(fs: Files, root: Path, base: Path, r: Path, links: nat)
    requires TreeLike(fs) && Resolve(fs, [], root, links) == Some(base)
    requires base + r in fs && !fs[base + r].Link?
    ensures Resolve(fs, [], root + r, links) == Some(base + r)
    decreases |r|
  {
    hide Resolve, ResolveForCreate;
    if r == [] {
      assert root + r == root && base + r == base;
    } else {
      var c := r[|r| - 1];
      assert Up(base + r) == base + Up(r) && base + r == base + Up(r) + [c] && root + r == root + Up(r) + [c];
      assert (base + r)[|base + r| - 1] == c;
      Through(fs, root, base, Up(r), links);
      ResolveSnoc(fs, [], root + Up(r), c, links);
    }
  }

  /** A path below the base whose last component may be missing, but is no link. */
  lemma LastStep(fs: Files, root: Path, base: Path, p: Path, links: nat)
    requires TreeLike(fs) && Resolve(fs, [], root, links) == Some(base)
    requires p != [] && IsDir(fs, base + Up(p)) && IsName(p[|p| - 1])
    requires base + p in fs ==> !fs[base + p].Link?
    ensures Resolve(fs, [], root + p, links) == if base + p in fs then Some(base + p) else None
    ensures ResolveForCreate(fs, [], root + p, links) == Some(base + p)
  {
    hide Resolve, ResolveForCreate, TreeLike;
    var c := p[|p| - 1];
    assert base + p == base + Up(p) + [c] && root + p == root + Up(p) + [c];
    Through(fs, root, base, Up(p), links);
    ResolveSnoc(fs, [], root + Up(p), c, links);
  }

  lemma EntryOfPath(fs: Files, root: Path, base: Path, p: Path)
    requires Home(fs, root, base) && p != [] && IsDir(fs, base + Up(p))
    ensures Up(root + p) == root + Up(p)
    ensures Stat(fs, root + Up(p)) == Some(base + Up(p)) && EvalSymlinks(fs, root + Up(p)) == Some(base + Up(p))
    ensures Lstat(fs, root + p) == if base + p in fs then Some(base + p) else None
  {
    hide Resolve, TreeLike, Leads;
    RootResolves(fs, root, base);
    Through(fs, root, base, Up(p), KERNEL_LINKS);
    Through(fs, root, base, Up(p), EVAL_LINKS);
    assert base + p == base + Up(p) + [p[|p| - 1]];
    assert (root + p)[|root + p| - 1] == p[|p| - 1];
  }

  // ---- pathWithin ----

  /** The spelling that pathWithin carries over to the resolved root. */
  predicate Carried(root: Path, base: Path, p: Path) {
    p != [] && (root == base || !HasPrefix(p[0], ".."))
  }

  /** A path below the root that is carried over: inside when it does not resolve, or resolves inside. */
  lemma WithinRule(fs: Files, root: Path, base: Path, p: Path)
    requires Home(fs, root, base) && (p == [] || Carried(root, base, p))
    ensures PathWithin(fs, root + p, root) <==>
            (EvalSymlinks(fs, base + p).None? || base <= EvalSymlinks(fs, base + p).value)
  {
    hide Resolve, TreeLike;
    RootResolves(fs, root, base);
    if p == [] {
      assert root + p == root && base + p == base;
      RealPath(fs, base, EVAL_LINKS);
    } else {
      var path := root + p;
      assert root < path && path[|root|..] == p && path[|root|] == p[0];
      assert HasPrefix(p[0], "..") ==> path == base + p;
    }
  }

  /** A real path inside the base, spelled as it resolved. */
  lemma RealIsWithin(fs: Files, root: Path, base: Path, r: Path)
    requires Home(fs, root, base) && base + r in fs && !fs[base + r].Link?
    ensures PathWithin(fs, base + r, root)
  {
    hide Resolve, TreeLike;
    RootResolves(fs, root, base);
    RealPath(fs, base + r, EVAL_LINKS);
    if root < base + r {
      RealRoot(fs, root, base, base + r);
      assert base + (base + r)[|base|..] == base + r;
    }
  }

  lemma RealRoot(fs: Files, root: Path, base: Path, q: Path)
    requires Home(fs, root, base) && root < q && q in fs
    ensures root == base
  {
    hide Resolve, TreeLike;
    RootResolves(fs, root, base);
    UpIsDir(fs, q);
    PrefixIsDir(fs, Up(q), |root|);
    assert Up(q)[..|root|] == root;
    RealPath(fs, root, KERNEL_LINKS);
  }

  lemma UpIsDir(fs: Files, q: Path)
    requires TreeLike(fs) && q in fs && q != []
    ensures IsDir(fs, Up(q))
  {
  }
}
