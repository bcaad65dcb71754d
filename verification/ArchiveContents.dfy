/** What an extracted archive leaves in the file system, entry by entry over the whole archive. */
module ArchiveContents {
  import opened Prelude
  import opened Paths
  import opened FileSystem
  import opened BackupPaths
  import opened BackupMetadata
  import opened ArchiveExtraction
  import opened ArchiveAcceptance

  type Entries = seq<ArchiveExtraction.Entry>

  /** Where the path of an entry leads. */
  function Where(fs: Files, dest: Path, e: ArchiveExtraction.Entry): Option<Path> {
    EvalSymlinks(fs, Target(dest, e.name))
  }

  predicate Differs(fs: Files, fs': Files, p: Path) {
    p in fs' && !(p in fs && fs[p] == fs'[p])
  }

  // ---- One entry ----

  /** The entry is in its place inside the root, and all that is new or other leads there. */
  ghost predicate Arrived(fs: Files, fs': Files, dest: Path, root: Path, e: ArchiveExtraction.Entry) {
    var q := Where(fs', dest, e);
    && q.Some? && root <= q.value && q.value in fs'
    && fs'[q.value] == (if e.kind.Directory? then Dir else File(e.content))
    && forall p | Differs(fs, fs', p) :: p == q.value || (p < q.value && fs'[p].Dir?)
  }

  lemma PresentArrives(fs: Files, dest: Path, e: ArchiveExtraction.Entry, root: Path)
    requires TreeLike(fs) && AllNames(dest) && EvalSymlinks(fs, dest) == Some(root)
    requires ExtractEntry(fs, dest, e).ok && !e.kind.Other? && Lstat(fs, Target(dest, e.name)).Some?
    ensures Arrived(fs, ExtractEntry(fs, dest, e).fs, dest, root, e)
  {
    hide Resolve, ResolveForCreate, MkdirAll, Target, Climb, TreeLike, Lstat;
    var target := Target(dest, e.name);
    TargetNames(dest, e.name);
    PresentConfined(fs, root, target, e.content);
    if e.kind.Directory? {
      PresentMkdir(fs, target);
      ResolveMoreLinks(fs, [], target, KERNEL_LINKS, EVAL_LINKS);
    } else {
      EntryWritten(fs, dest, e, root);
      CreateFollows(fs, [], target, KERNEL_LINKS, EVAL_LINKS);
      ExistingPlace(fs, dest, e, root);
    }
  }

  lemma PresentMkdir(fs: Files, target: Path)
    requires TreeLike(fs) && AllNames(target) && Lstat(fs, target).Some? && MkdirAll(fs, target).ok
    ensures MkdirAll(fs, target).fs == fs && Stat(fs, target).Some? && IsDir(fs, Stat(fs, target).value)
  {
    hide Resolve, MkdirAll, Lstat, TreeLike;
    if Stat(fs, target).Some? && IsDir(fs, Stat(fs, target).value) {
      MkdirAllThere(fs, target);
    } else {
      assert target + [] == target;
      MkdirAllBlocked(fs, target, []);
    }
  }

  /** The file is written where its path leads afterwards. */
  lemma ExistingPlace(fs: Files, dest: Path, e: ArchiveExtraction.Entry, root: Path)
    requires TreeLike(fs) && AllNames(dest) && EvalSymlinks(fs, dest) == Some(root)
    requires ExtractEntry(fs, dest, e).ok && e.kind.Regular?
    ensures var fs1 := MkdirAll(fs, Up(Target(dest, e.name))).fs;
            var fs' := ExtractEntry(fs, dest, e).fs;
            Where(fs', dest, e).Some? && fs' == fs1[Where(fs', dest, e).value := File(e.content)]
  {
    hide Resolve, ResolveForCreate, MkdirAll, Target, Climb, Creatable, Lstat, TreeLike;
    var target := Target(dest, e.name);
    var fs1 := MkdirAll(fs, Up(target)).fs;
    CreatedIsFound(fs1, [], target, KERNEL_LINKS, e.content);
    ResolveMoreLinks(ExtractEntry(fs, dest, e).fs, [], target, KERNEL_LINKS, EVAL_LINKS);
  }

  lemma MissingArrives(fs: Files, dest: Path, e: ArchiveExtraction.Entry, root: Path)
    requires TreeLike(fs) && AllNames(dest) && EvalSymlinks(fs, dest) == Some(root)
    requires ExtractEntry(fs, dest, e).ok && !e.kind.Other? && Lstat(fs, Target(dest, e.name)).None?
    ensures Arrived(fs, ExtractEntry(fs, dest, e).fs, dest, root, e)
  {
    hide Resolve, ResolveForCreate, MkdirAll, Target, Climb, TreeLike, Lstat, WithDirs, Added;
    var target := Target(dest, e.name);
    TargetNames(dest, e.name);
    var p := Climb(fs, dest, Up(target)).value;
    ClimbFinds(fs, dest, Up(target));
    RootThere(fs, target);
    var rest := target[|p|..];
    assert target == p + rest && Up(target) == p + Up(rest);
    NextOfTarget(target, p, rest);
    NamesBelow(p, rest);
    var base := EvalSymlinks(fs, p).value;
    if e.kind.Directory? {
      MissingDirs(fs, root, p, rest);
      var fs' := MkdirAll(fs, target).fs;
      ResolveMoreLinks(fs', [], target, KERNEL_LINKS, EVAL_LINKS);
      forall q | Differs(fs, fs', q) ensures q <= base + rest && fs'[q].Dir? {
        WithDirsAt(fs, base, rest, q);
        AddedPrefix(base, rest, q);
      }
    } else {
      MissingDirs(fs, root, p, Up(rest));
      CreatePlace(fs, p, base, rest);
      var fs1 := MkdirAll(fs, Up(target)).fs;
      EntryWritten(fs, dest, e, root);
      ExistingPlace(fs, dest, e, root);
      var fs' := ExtractEntry(fs, dest, e).fs;
      CreatedIsFound(fs1, [], target, KERNEL_LINKS, e.content);
      ResolveMoreLinks(fs', [], target, KERNEL_LINKS, EVAL_LINKS);
      forall q | Differs(fs, fs', q) && q != base + rest ensures q < base + rest && fs'[q].Dir? {
        WithDirsAt(fs, base, Up(rest), q);
        AddedPrefix(base, Up(rest), q);
        assert base + Up(rest) == (base + rest)[..|base + rest| - 1];
      }
    }
  }

  lemma AddedPrefix(base: Path, rest: seq<string>, q: Path)
    ensures Added(base, rest, q) ==> q <= base + rest
  {
  }

  lemma NextOfTarget(target: Path, p: Path, rest: seq<string>)
    requires target == p + rest && rest != []
    ensures p + [rest[0]] == target[..|p| + 1]
    ensures p != Up(target) ==> target[..|p| + 1] == Up(target)[..|p| + 1]
    ensures p == Up(target) ==> target[..|p| + 1] == target
  {
  }

  lemma EntryArrives(fs: Files, dest: Path, e: ArchiveExtraction.Entry, root: Path)
    requires TreeLike(fs) && AllNames(dest) && EvalSymlinks(fs, dest) == Some(root)
    requires ExtractEntry(fs, dest, e).ok
    ensures e.kind.Other? ==> ExtractEntry(fs, dest, e).fs == fs
    ensures !e.kind.Other? ==> Arrived(fs, ExtractEntry(fs, dest, e).fs, dest, root, e)
  {
    hide *;
    if e.kind.Other? {
      OtherSkipped(fs, dest, e);
    } else if Lstat(fs, Target(dest, e.name)).Some? {
      PresentArrives(fs, dest, e, root);
    } else {
      MissingArrives(fs, dest, e, root);
    }
  }

  lemma OtherSkipped(fs: Files, dest: Path, e: ArchiveExtraction.Entry)
    requires e.kind.Other?
    ensures ExtractEntry(fs, dest, e).fs == fs
  {
    hide SafeArchiveJoin;
  }

  // ---- The whole archive ----

  /** An archive format writes this entry as a file: regular entries, and in a zip all that is no directory. */
  predicate IsFile(e: ArchiveExtraction.Entry, zip: bool) {
    e.kind == Regular || (zip && e.kind == Other)
  }

  /** The entry's path leads inside the root to a file. Unless a later entry is written at that place, it holds
      what the entry holds. */
  predicate FileThere(fs': Files, dest: Path, root: Path, es: Entries, zip: bool, i: nat)
    requires i < |es|
  {
    var q := Where(fs', dest, es[i]);
    && q.Some? && root <= q.value && q.value in fs' && fs'[q.value].File?
    && ((forall k | i < k < |es| && IsFile(es[k], zip) :: Where(fs', dest, es[k]) != q) ==>
          fs'[q.value].content == es[i].content)
  }

  predicate DirThere(fs': Files, dest: Path, root: Path, e: ArchiveExtraction.Entry) {
    var q := Where(fs', dest, e);
    q.Some? && root <= q.value && IsDir(fs', q.value)
  }

  /** A node that is new or other belongs to an entry: it is the entry's file, or a directory on the way to its place,
      the place included. */
  predicate Belongs(fs': Files, dest: Path, e: ArchiveExtraction.Entry, zip: bool, p: Path) {
    var q := Where(fs', dest, e);
    && q.Some? && p in fs' && (IsFile(e, zip) || e.kind == Directory)
    && ((p == q.value && IsFile(e, zip)) || (p <= q.value && fs'[p].Dir?))
  }

  ghost predicate Delivered(fs: Files, fs': Files, dest: Path, root: Path, es: Entries, zip: bool) {
    && (forall i: nat | i < |es| && IsFile(es[i], zip) :: FileThere(fs', dest, root, es, zip, i))
    && (forall i: nat | i < |es| && es[i].kind == Directory :: DirThere(fs', dest, root, es[i]))
    && (forall p | p in fs :: p in fs')
    && (forall p | Differs(fs, fs', p) :: exists i: nat | i < |es| :: Belongs(fs', dest, es[i], zip, p))
  }

  lemma WhereStays(fs: Files, fs': Files, dest: Path, e: ArchiveExtraction.Entry)
    requires Grows(fs, fs')
    ensures Where(fs, dest, e).Some? ==> Where(fs', dest, e) == Where(fs, dest, e)
  {
    hide Resolve, Target;
    ResolveGrows(fs, fs', [], Target(dest, e.name), EVAL_LINKS);
  }

  /** The first entry of an archive, after the others have been extracted on top of it. */
  lemma FirstThere(fs: Files, fs1: Files, fs': Files, dest: Path, root: Path, es: Entries)
    requires es != [] && !es[0].kind.Other? && Arrived(fs, fs1, dest, root, es[0])
    requires Grows(fs1, fs') && Delivered(fs1, fs', dest, root, es[1..], false)
    ensures IsFile(es[0], false) ==> FileThere(fs', dest, root, es, false, 0)
    ensures es[0].kind == Directory ==> DirThere(fs', dest, root, es[0])
  {
    hide Where, TreeLike;
    WhereStays(fs1, fs', dest, es[0]);
    var q := Where(fs', dest, es[0]).value;
    var rest := es[1..];
    if es[0].kind.Regular? && forall k | 0 < k < |es| && IsFile(es[k], false) :: Where(fs', dest, es[k]) != Some(q) {
      assert fs'[q].File?;
      forall k: nat | k < |rest| ensures !Belongs(fs', dest, rest[k], false, q) {
        assert rest[k] == es[k + 1];
      }
      assert !Differs(fs1, fs', q);
    }
  }

  lemma LaterThere(fs1: Files, fs': Files, dest: Path, root: Path, es: Entries)
    requires es != [] && Delivered(fs1, fs', dest, root, es[1..], false)
    ensures forall i: nat | 0 < i < |es| && IsFile(es[i], false) :: FileThere(fs', dest, root, es, false, i)
    ensures forall i: nat | 0 < i < |es| && es[i].kind == Directory :: DirThere(fs', dest, root, es[i])
  {
    hide Where;
    var rest := es[1..];
    forall i: nat | 0 < i < |es| && IsFile(es[i], false) ensures FileThere(fs', dest, root, es, false, i) {
      assert rest[i - 1] == es[i];
      assert FileThere(fs', dest, root, rest, false, i - 1);
      assert forall k | i - 1 < k < |rest| :: rest[k] == es[k + 1];
    }
    forall i: nat | 0 < i < |es| && es[i].kind == Directory ensures DirThere(fs', dest, root, es[i]) {
      assert rest[i - 1] == es[i];
    }
  }

  lemma AllBelong(fs: Files, fs1: Files, fs': Files, dest: Path, root: Path, es: Entries, p: Path)
    requires es != [] && Grows(fs, fs1) && Grows(fs1, fs') && Delivered(fs1, fs', dest, root, es[1..], false)
    requires if es[0].kind.Other? then fs1 == fs else Arrived(fs, fs1, dest, root, es[0])
    requires Differs(fs, fs', p)
    ensures exists i: nat | i < |es| :: Belongs(fs', dest, es[i], false, p)
  {
    hide Where;
    var rest := es[1..];
    if Differs(fs1, fs', p) {
      var i: nat :| i < |rest| && Belongs(fs', dest, rest[i], false, p);
      assert rest[i] == es[i + 1];
    } else {
      assert Differs(fs, fs1, p);
      WhereStays(fs1, fs', dest, es[0]);
      assert Belongs(fs', dest, es[0], false, p);
    }
  }

  lemma {:induction false} AllDelivered(fs: Files, dest: Path, es: Entries, root: Path)
    requires TreeLike(fs) && AllNames(dest) && EvalSymlinks(fs, dest) == Some(root)
    requires ExtractAll(fs, dest, es).ok
    ensures Delivered(fs, ExtractAll(fs, dest, es).fs, dest, root, es, false)
    decreases es
  {
    hide ExtractEntry, Delivered, TreeLike, Arrived, EvalSymlinks, FileThere, DirThere, Belongs, Grows;
    if es == [] {
      NothingDelivered(fs, dest, root);
    } else {
      var fs1 := ExtractEntry(fs, dest, es[0]).fs;
      var fs' := ExtractAll(fs, dest, es).fs;
      EntryConfined(fs, dest, es[0], root);
      EntryArrives(fs, dest, es[0], root);
      AllDelivered(fs1, dest, es[1..], root);
      AllConfined(fs1, dest, es[1..]);
      MoreDelivered(fs, fs1, fs', dest, root, es);
    }
  }

  lemma NothingDelivered(fs: Files, dest: Path, root: Path)
    ensures Delivered(fs, fs, dest, root, [], false)
  {
  }

  lemma MoreDelivered(fs: Files, fs1: Files, fs': Files, dest: Path, root: Path, es: Entries)
    requires es != [] && Grows(fs, fs1) && Grows(fs1, fs') && Delivered(fs1, fs', dest, root, es[1..], false)
    requires if es[0].kind.Other? then fs1 == fs else Arrived(fs, fs1, dest, root, es[0])
    ensures Delivered(fs, fs', dest, root, es, false)
  {
    hide FileThere, DirThere, Belongs, Arrived;
    if !es[0].kind.Other? {
      FirstThere(fs, fs1, fs', dest, root, es);
    }
    LaterThere(fs1, fs', dest, root, es);
    forall p | Differs(fs, fs', p) ensures exists i: nat | i < |es| :: Belongs(fs', dest, es[i], false, p) {
      AllBelong(fs, fs1, fs', dest, root, es, p);
    }
  }

  /** What the format makes of an archive. */
  function Read(es: Entries, zip: bool): (read: Entries)
    ensures |read| == |es|
  {
    if zip then Zip(es) else es
  }

  /** A whole archive that is extracted without an error: for every entry of it, in tar and in zip, the file is
      at its own path with the content of the last entry written at that place, or the directory is there, inside the
      real destination; nothing is gone, and every node that is new or other is one of these or a directory on the way. */
  lemma ArchiveDelivered(fs: Files, dest: Path, es: Entries, zip: bool)
    requires TreeLike(fs) && AllNames(dest) && ExtractAll(fs, dest, Read(es, zip)).ok && es != []
    ensures var root := EvalSymlinks(fs, dest);
            root.Some? && Delivered(fs, ExtractAll(fs, dest, Read(es, zip)).fs, dest, root.value, es, zip)
  {
    hide TreeLike, EvalSymlinks, ExtractEntry, Delivered;
    if EvalSymlinks(fs, dest).None? {
      EntryRefused(fs, dest, Read(es, zip)[0]);
    }
    var root := EvalSymlinks(fs, dest).value;
    AllDelivered(fs, dest, Read(es, zip), root);
    if zip {
      ZipDelivered(fs, ExtractAll(fs, dest, Zip(es)).fs, dest, root, es);
    }
  }

  lemma ZipSame(fs': Files, dest: Path, es: Entries, i: nat)
    requires i < |es|
    ensures Where(fs', dest, Zip(es)[i]) == Where(fs', dest, es[i]) && Zip(es)[i].content == es[i].content
    ensures IsFile(Zip(es)[i], false) == IsFile(es[i], true)
    ensures Zip(es)[i].kind == Directory <==> es[i].kind == Directory
  {
    hide Target, Resolve;
  }

  lemma ZipFile(fs': Files, dest: Path, root: Path, es: Entries, i: nat)
    requires i < |es| && FileThere(fs', dest, root, Zip(es), false, i)
    ensures FileThere(fs', dest, root, es, true, i)
  {
    ZipSame(fs', dest, es, i);
    forall k: nat | i < k < |es|
      ensures IsFile(Zip(es)[k], false) == IsFile(es[k], true) && Where(fs', dest, Zip(es)[k]) == Where(fs', dest, es[k])
    {
      ZipSame(fs', dest, es, k);
    }
    hide Where, Zip, IsFile;
  }

  lemma ZipDelivered(fs: Files, fs': Files, dest: Path, root: Path, es: Entries)
    requires Delivered(fs, fs', dest, root, Zip(es), false)
    ensures Delivered(fs, fs', dest, root, es, true)
  {
    hide Where, Zip, IsFile, FileThere;
    forall i: nat | i < |es| && IsFile(es[i], true) ensures FileThere(fs', dest, root, es, true, i) {
      ZipSame(fs', dest, es, i);
      ZipFile(fs', dest, root, es, i);
    }
    forall i: nat | i < |es| && es[i].kind == Directory ensures DirThere(fs', dest, root, es[i]) {
      ZipSame(fs', dest, es, i);
      assert DirThere(fs', dest, root, Zip(es)[i]);
    }
    forall p | Differs(fs, fs', p) ensures exists i: nat | i < |es| :: Belongs(fs', dest, es[i], true, p) {
      var i: nat :| i < |es| && Belongs(fs', dest, Zip(es)[i], false, p);
      ZipSame(fs', dest, es, i);
      assert Belongs(fs', dest, es[i], true, p);
    }
  }

  // ---- Archives that are accepted ----

  /** The entry names a new path below the destination that no file or link is in the way of. */
  predicate CleanEntry(fs: Files, dest: Path, e: ArchiveExtraction.Entry, p: Path, zip: bool) {
    && p != [] && AllNames(p) && p[0][0] != '\\' && Spells(e.name, p)
    && (IsFile(e, zip) || e.kind == Directory)
    && OnTrack(fs, dest + p) && dest + p !in fs
  }

  /** Every entry is clean, and no two are in each other's way: the paths differ, and none leads through the file of
      another. */
  predicate CleanArchive(fs: Files, dest: Path, es: Entries, paths: seq<Path>, zip: bool) {
    && |paths| == |es|
    && (forall i | 0 <= i < |es| :: CleanEntry(fs, dest, es[i], paths[i], zip))
    && (forall i, j | 0 <= i < |es| && 0 <= j < |es| && i != j ::
          paths[i] != paths[j] && (IsFile(es[i], zip) ==> !(paths[i] <= paths[j])))
  }

  predicate OnTheWay(fs': Files, at: Path, q: Path) {
    q == at || (q < at && q in fs' && fs'[q].Dir?)
  }

  predicate ByEntry(fs': Files, dest: Path, paths: seq<Path>, n: nat, q: Path)
    requires n <= |paths|
  {
    exists i | 0 <= i < n :: OnTheWay(fs', dest + paths[i], q)
  }

  predicate InPlace(fs': Files, at: Path, e: ArchiveExtraction.Entry) {
    at in fs' && fs'[at] == if e.kind == Directory then Dir else File(e.content)
  }

  /** Exactly the first `n` entries and the directories they need have been added. */
  ghost predicate Filled(fs: Files, fs': Files, dest: Path, es: Entries, paths: seq<Path>, zip: bool, n: nat)
    requires n <= |es| == |paths|
  {
    && (forall q | q in fs :: q in fs' && fs'[q] == fs[q])
    && (forall i | 0 <= i < n :: InPlace(fs', dest + paths[i], es[i]))
    && (forall q | q in fs' && q !in fs :: ByEntry(fs', dest, paths, n, q))
  }

  lemma AllTrack(fs: Files, at: Path)
    requires forall k | 0 <= k < |at| && at[..k] in fs :: fs[at[..k]].Dir?
    ensures OnTrack(fs, at)
  {
  }

  lemma SameBelow(dest: Path, p: Path, q: Path)
    ensures dest + p == dest + q <==> p == q
    ensures dest + p <= dest + q <==> p <= q
  {
    assert (dest + p)[|dest|..] == p && (dest + q)[|dest|..] == q;
    if dest + p <= dest + q {
      assert p == (dest + q)[..|dest + p|][|dest|..] == q[..|p|];
    }
    if p <= q {
      assert (dest + q)[..|dest + p|] == dest + q[..|p|];
    }
  }

  /** What the earlier entries have put on the way to the next one. */
  lemma NewOnTheWay(fs: Files, fs': Files, dest: Path, es: Entries, paths: seq<Path>, n: nat, q: Path)
    requires n < |es| == |paths| && CleanArchive(fs, dest, es, paths, false) && Filled(fs, fs', dest, es, paths, false, n)
    requires q in fs' && q !in fs && q <= dest + paths[n]
    ensures fs'[q].Dir? && (q == dest + paths[n] ==> es[n].kind == Directory)
  {
    var i := Before(fs, fs', dest, es, paths, n, q);
    Apart(fs, dest, es, paths, i, n);
    NewNode(fs, fs', dest, es, paths, n, i);
    hide CleanArchive, Filled;
    if q == dest + paths[i] {
      SameBelow(dest, paths[i], paths[n]);
    } else if q == dest + paths[n] {
      SameBelow(dest, paths[n], paths[i]);
    }
  }

  lemma Before(fs: Files, fs': Files, dest: Path, es: Entries, paths: seq<Path>, n: nat, q: Path) returns (i: nat)
    requires n <= |es| == |paths| && Filled(fs, fs', dest, es, paths, false, n) && q in fs' && q !in fs
    ensures i < n && OnTheWay(fs', dest + paths[i], q)
  {
    assert ByEntry(fs', dest, paths, n, q);
    i :| 0 <= i < n && OnTheWay(fs', dest + paths[i], q);
  }

  lemma Apart(fs: Files, dest: Path, es: Entries, paths: seq<Path>, i: nat, j: nat)
    requires CleanArchive(fs, dest, es, paths, false) && i < |es| && j < |es| && i != j
    ensures paths[i] != paths[j]
    ensures es[i].kind == Directory || !(paths[i] <= paths[j])
    ensures es[j].kind == Directory || !(paths[j] <= paths[i])
  {
    hide OnTrack, AllNames, Spells;
    assert CleanEntry(fs, dest, es[i], paths[i], false) && CleanEntry(fs, dest, es[j], paths[j], false);
  }

  lemma NewNode(fs: Files, fs': Files, dest: Path, es: Entries, paths: seq<Path>, n: nat, i: nat)
    requires i < n <= |es| == |paths| && Filled(fs, fs', dest, es, paths, false, n)
    ensures dest + paths[i] in fs' && (es[i].kind == Directory ==> fs'[dest + paths[i]].Dir?)
  {
  }

  lemma NextOnTrack(fs: Files, fs': Files, dest: Path, es: Entries, paths: seq<Path>, n: nat)
    requires n < |es| == |paths| && CleanArchive(fs, dest, es, paths, false) && Filled(fs, fs', dest, es, paths, false, n)
    ensures OnTrack(fs', dest + paths[n])
    ensures dest + paths[n] in fs' ==> es[n].kind == Directory && IsDir(fs', dest + paths[n])
  {
    hide CleanArchive, Filled, OnTrack, AllNames, Spells;
    var at := dest + paths[n];
    NextIsClean(fs, dest, es, paths, n);
    forall k | 0 <= k < |at| && at[..k] in fs' ensures fs'[at[..k]].Dir? {
      if at[..k] in fs {
        TrackAt(fs, at, k);
        FilledKeeps(fs, fs', dest, es, paths, n, at[..k]);
      } else {
        NewOnTheWay(fs, fs', dest, es, paths, n, at[..k]);
      }
    }
    AllTrack(fs', at);
    if at in fs' {
      NewOnTheWay(fs, fs', dest, es, paths, n, at);
    }
  }

  lemma NextIsClean(fs: Files, dest: Path, es: Entries, paths: seq<Path>, n: nat)
    requires CleanArchive(fs, dest, es, paths, false) && n < |es|
    ensures CleanEntry(fs, dest, es[n], paths[n], false)
  {
  }

  lemma TrackAt(fs: Files, at: Path, k: nat)
    requires OnTrack(fs, at) && k < |at| && at[..k] in fs
    ensures fs[at[..k]].Dir?
  {
  }

  lemma FilledKeeps(fs: Files, fs': Files, dest: Path, es: Entries, paths: seq<Path>, n: nat, q: Path)
    requires n <= |es| == |paths| && Filled(fs, fs', dest, es, paths, false, n) && q in fs
    ensures q in fs' && fs'[q] == fs[q]
  {
  }

  /** The step of an entry whose directory an earlier entry has made already. */
  lemma DirAgain(fs: Files, dest: Path, p: Path, name: string, content: string)
    requires TreeLike(fs) && dest != [] && IsDir(fs, dest) && AllNames(dest)
    requires AllNames(p) && p != [] && p[0][0] != '\\' && Spells(name, p) && IsDir(fs, dest + p)
    ensures ExtractEntry(fs, dest, Entry(name, Directory, content)) == Outcome(fs, true)
  {
    hide Resolve, MkdirAll, TreeLike, Target, Climb, Lstat, Spells;
    var at := dest + p;
    TargetOfNames(dest, name, p);
    PresentDir(fs, at);
    PresentDir(fs, dest);
    RealPath(fs, at, KERNEL_LINKS);
    MkdirAllThere(fs, at);
    assert dest <= at;
    assert SafeArchiveJoin(fs, dest, name) == Some(at);
  }

  lemma MoreEntries(fs1: Files, dest: Path, paths: seq<Path>, n: nat, q: Path)
    requires n < |paths|
    ensures ByEntry(fs1, dest, paths, n, q) ==> ByEntry(fs1, dest, paths, n + 1, q)
  {
  }

  lemma EntriesKept(fs1: Files, fs2: Files, dest: Path, paths: seq<Path>, n: nat, q: Path)
    requires n < |paths| && ByEntry(fs1, dest, paths, n, q) && forall p | p in fs1 :: p in fs2 && fs2[p] == fs1[p]
    ensures ByEntry(fs2, dest, paths, n + 1, q)
  {
    var i :| 0 <= i < n && OnTheWay(fs1, dest + paths[i], q);
    assert OnTheWay(fs2, dest + paths[i], q);
  }

  lemma LastEntry(fs2: Files, dest: Path, paths: seq<Path>, n: nat, q: Path)
    requires n < |paths| && OnTheWay(fs2, dest + paths[n], q)
    ensures ByEntry(fs2, dest, paths, n + 1, q)
  {
  }

  lemma DirFills(fs: Files, fs1: Files, dest: Path, es: Entries, paths: seq<Path>, n: nat)
    requires n < |es| == |paths| && Filled(fs, fs1, dest, es, paths, false, n)
    requires es[n].kind == Directory && IsDir(fs1, dest + paths[n])
    ensures Filled(fs, fs1, dest, es, paths, false, n + 1)
  {
    hide ByEntry;
    forall q | q in fs1 && q !in fs ensures ByEntry(fs1, dest, paths, n + 1, q) {
      MoreEntries(fs1, dest, paths, n, q);
    }
  }

  lemma PlacedFills(fs: Files, fs1: Files, dest: Path, es: Entries, paths: seq<Path>, n: nat)
    requires n < |es| == |paths| && CleanArchive(fs, dest, es, paths, false) && Filled(fs, fs1, dest, es, paths, false, n)
    requires TreeLike(fs1) && dest + paths[n] !in fs1
    ensures es[n].kind == Directory ==> Filled(fs, AllDirs(fs1, dest + paths[n]), dest, es, paths, false, n + 1)
    ensures es[n].kind == Regular ==> Filled(fs, Placed(fs1, dest + paths[n], es[n].content), dest, es, paths, false, n + 1)
  {
    hide TreeLike, AllDirs, OnTrack, ByEntry, CleanArchive;
    NextIsClean(fs, dest, es, paths, n);
    var at := dest + paths[n];
    var fs2 := if es[n].kind == Directory then AllDirs(fs1, at) else Placed(fs1, at, es[n].content);
    forall q ensures q in fs1 ==> q in fs2 && fs2[q] == fs1[q]
             ensures q in fs2 && q !in fs1 ==> OnTheWay(fs2, at, q)
    {
      AllDirsAt(fs1, at, q);
      AllDirsAt(fs1, Up(at), q);
      UpPrefix(at, q);
    }
    AllDirsAt(fs1, at, at);
    forall q | q in fs2 && q !in fs ensures ByEntry(fs2, dest, paths, n + 1, q) {
      if q in fs1 {
        EntriesKept(fs1, fs2, dest, paths, n, q);
      } else {
        LastEntry(fs2, dest, paths, n, q);
      }
    }
  }

  lemma NextFilled(fs: Files, fs1: Files, dest: Path, es: Entries, paths: seq<Path>, n: nat)
    requires TreeLike(fs) && dest != [] && IsDir(fs, dest) && AllNames(dest) && TreeLike(fs1) && IsDir(fs1, dest)
    requires n < |es| == |paths| && CleanArchive(fs, dest, es, paths, false) && Filled(fs, fs1, dest, es, paths, false, n)
    ensures var out := ExtractEntry(fs1, dest, es[n]);
            out.ok && Filled(fs, out.fs, dest, es, paths, false, n + 1)
  {
    hide TreeLike, ExtractEntry, OnTrack, AllDirs, Placed, Spells, CleanArchive, Filled, AllNames;
    NextOnTrack(fs, fs1, dest, es, paths, n);
    NextIsClean(fs, dest, es, paths, n);
    assert es[n] == Entry(es[n].name, es[n].kind, es[n].content);
    if dest + paths[n] in fs1 {
      DirAgain(fs1, dest, paths[n], es[n].name, es[n].content);
      DirFills(fs, fs1, dest, es, paths, n);
    } else {
      CleanEntryExtracted(fs1, dest, paths[n], es[n].name, es[n].content);
      PlacedFills(fs, fs1, dest, es, paths, n);
    }
  }

  lemma {:induction false} RestFilled(fs: Files, fs1: Files, dest: Path, es: Entries, paths: seq<Path>, n: nat)
    requires TreeLike(fs) && dest != [] && IsDir(fs, dest) && AllNames(dest) && TreeLike(fs1) && IsDir(fs1, dest)
    requires n <= |es| == |paths| && CleanArchive(fs, dest, es, paths, false) && Filled(fs, fs1, dest, es, paths, false, n)
    ensures var out := ExtractAll(fs1, dest, es[n..]);
            out.ok && Filled(fs, out.fs, dest, es, paths, false, |es|)
    decreases |es| - n
  {
    hide TreeLike, ExtractEntry, CleanArchive, Filled, Confined, Resolve, AllNames;
    if n == |es| {
      assert es[n..] == [];
    } else {
      assert es[n..] == [es[n]] + es[n + 1..];
      NextFilled(fs, fs1, dest, es, paths, n);
      PresentDir(fs1, dest);
      EntryConfined(fs1, dest, es[n], dest);
      RestFilled(fs, ExtractEntry(fs1, dest, es[n]).fs, dest, es, paths, n + 1);
    }
  }

  /** A clean archive is extracted without an error, in tar and in zip, and adds exactly its entries and the
      directories they need to an existing destination. */
  lemma CleanArchiveExtracted(fs: Files, dest: Path, es: Entries, paths: seq<Path>, zip: bool)
    requires TreeLike(fs) && dest != [] && IsDir(fs, dest) && AllNames(dest)
    requires |es| == |paths| && CleanArchive(fs, dest, es, paths, zip)
    ensures var out := ExtractAll(fs, dest, Read(es, zip));
            out.ok && Filled(fs, out.fs, dest, es, paths, zip, |es|)
  {
    hide TreeLike, ExtractAll, CleanArchive, Filled;
    var read := Read(es, zip);
    if zip {
      ZipIsClean(fs, dest, es, paths);
    }
    NothingFilled(fs, dest, read, paths);
    assert read[0..] == read;
    RestFilled(fs, fs, dest, read, paths, 0);
    if zip {
      ZipFilled(fs, ExtractAll(fs, dest, read).fs, dest, es, paths);
    }
  }

  lemma NothingFilled(fs: Files, dest: Path, es: Entries, paths: seq<Path>)
    requires |es| == |paths|
    ensures Filled(fs, fs, dest, es, paths, false, 0)
  {
  }

  lemma ZipIsClean(fs: Files, dest: Path, es: Entries, paths: seq<Path>)
    requires CleanArchive(fs, dest, es, paths, true)
    ensures CleanArchive(fs, dest, Zip(es), paths, false)
  {
    hide OnTrack, AllNames, Spells;
    forall i | 0 <= i < |es|
      ensures IsFile(Zip(es)[i], false) == IsFile(es[i], true) && CleanEntry(fs, dest, Zip(es)[i], paths[i], false)
    {
      assert CleanEntry(fs, dest, es[i], paths[i], true);
    }
    hide CleanEntry, IsFile, Zip;
  }

  lemma ZipFilled(fs: Files, fs': Files, dest: Path, es: Entries, paths: seq<Path>)
    requires |paths| == |es| && Filled(fs, fs', dest, Zip(es), paths, false, |es|)
    ensures Filled(fs, fs', dest, es, paths, true, |es|)
  {
    hide ByEntry;
    forall i | 0 <= i < |es| ensures InPlace(fs', dest + paths[i], es[i]) {
      assert InPlace(fs', dest + paths[i], Zip(es)[i]);
    }
  }

  /** Below "/" no entry is accepted but one that leads to "/" itself: nothing but the root is found below "//". */
  lemma RootDestination(fs: Files, e: ArchiveExtraction.Entry)
    requires Target([], e.name) != []
    ensures ExtractEntry(fs, [], e) == Outcome(fs, false)
  {
    hide Target, Creatable;
  }
}
