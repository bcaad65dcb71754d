/** What an accepted archive entry leaves behind: the file or directory at its own path, and nothing else. */
module ArchiveAcceptance {
  import opened Paths
  import opened FileSystem
  import opened BackupPaths
  import opened BackupRoundTrip
  import opened BackupMetadata
  import opened ArchiveExtraction
  import opened Prelude

  /** The name spells the path: its components joined, behind any slashes and backslashes, perhaps with one "/" after. */
  predicate Spells(name: string, p: Path) {
    exists k, m | 0 <= k <= m <= |name| :: SpellsAt(name, p, k, m)
  }

  predicate SpellsAt(name: string, p: Path, k: nat, m: nat)
    requires k <= m <= |name|
  {
    (forall i | 0 <= i < k :: name[i] == '/' || name[i] == '\\') && name[k..m] == Join(p) && (m == |name| || name[m..] == "/")
  }

  lemma TargetOfNames(dest: Path, name: string, p: Path)
    requires AllNames(p) && p != [] && p[0][0] != '\\' && Spells(name, p)
    ensures Target(dest, name) == dest + p
  {
    hide Fold, CleanParts, Join, TrimLeft, SpellsAt;
    var k, m :| 0 <= k <= m <= |name| && SpellsAt(name, p, k, m);
    LeadDropped(name, p, k, m);
    NameParts(p);
    TrailingSlash(p);
    FoldNames(true, dest, p);
  }

  lemma LeadDropped(name: string, p: Path, k: nat, m: nat)
    requires AllNames(p) && p != [] && p[0][0] != '\\' && k <= m <= |name| && SpellsAt(name, p, k, m)
    ensures TrimLeft(name, SLASHES) == Join(p) || TrimLeft(name, SLASHES) == Join(p) + "/"
  {
    hide Join, TrimLeft;
    JoinHead(p);
    FirstCharacter(p);
    assert name[k] == name[k..m][0];
    TrimLeftStops(name, SLASHES, k);
    assert name[k..] == name[k..m] + name[m..];
    assert Join(p) + "" == Join(p);
  }

  lemma FirstCharacter(p: Path)
    requires AllNames(p) && p != [] && p[0][0] != '\\'
    ensures !SLASHES(p[0][0])
  {
    assert '/' !in p[0];
  }

  lemma TrailingSlash(p: Path)
    requires AllNames(p) && p != []
    ensures CleanParts(Join(p) + "/") == p
  {
    hide SplitSlash, Join;
    NameParts(p);
    JoinHead(p);
    SplitConcat(Join(p), "");
    SplitNoSlash("");
    assert Join(p) + "/" + "" == Join(p) + "/";
    assert (Join(p) + "/")[0] == Join(p)[0];
    FoldConcat(false, [], SplitSlash(Join(p)), [""]);
  }

  lemma JoinHead(p: Path)
    requires AllNames(p) && p != []
    ensures Join(p) != "" && Join(p)[0] == p[0][0]
  {
  }

  lemma {:induction false} ClimbInside(fs: Files, dest: Path, p: Path)
    requires TreeLike(fs) && IsDir(fs, dest) && dest <= p && AllNames(p)
    requires OnTrack(fs, p) && (p in fs ==> fs[p].Dir?)
    ensures var found := Climb(fs, dest, p); found.Some? && dest <= found.value && IsDir(fs, found.value)
    decreases |p|
  {
    hide Resolve, TreeLike, OnTrack;
    if p in fs {
      PresentDir(fs, p);
    } else {
      assert p != dest;
      OnTrackUp(fs, p);
      NamesUp(p);
      MissingTrack(fs, p);
      ClimbInside(fs, dest, Up(p));
    }
  }

  lemma PresentDir(fs: Files, p: Path)
    requires TreeLike(fs) && IsDir(fs, p)
    ensures Lstat(fs, p) == Some(p) && EvalSymlinks(fs, p) == Some(p)
  {
    hide Resolve;
    RealPath(fs, p, EVAL_LINKS);
    if p != [] {
      RealPath(fs, Up(p), KERNEL_LINKS);
      assert Up(p) + [p[|p| - 1]] == p;
    }
  }

  lemma MissingTrack(fs: Files, p: Path)
    requires TreeLike(fs) && AllNames(p) && OnTrack(fs, p) && p != [] && p !in fs
    ensures Lstat(fs, p) == None
  {
    hide Resolve, OnTrack;
    OnTrackUp(fs, p);
    NamesUp(p);
    assert Up(p) + [p[|p| - 1]] == p;
    if Up(p) in fs {
      RealPath(fs, Up(p), KERNEL_LINKS);
    } else {
      TrackMissing(fs, Up(p), KERNEL_LINKS);
    }
  }

  /** An entry whose path meets only directories is accepted, and adds exactly itself and the
      directories it needs. */
  lemma CleanEntryExtracted(fs: Files, dest: Path, p: Path, name: string, content: string)
    requires TreeLike(fs) && dest != [] && IsDir(fs, dest) && AllNames(dest)
    requires AllNames(p) && p != [] && p[0][0] != '\\' && Spells(name, p)
    requires OnTrack(fs, dest + p) && dest + p !in fs
    ensures ExtractEntry(fs, dest, Entry(name, Regular, content)) == Outcome(Placed(fs, dest + p, content), true)
    ensures ExtractEntry(fs, dest, Entry(name, Directory, content)) == Outcome(AllDirs(fs, dest + p), true)
  {
    hide Resolve, ResolveForCreate, MkdirAll, TreeLike, Leads, WriteFile, OnTrack, Target, Climb, Lstat, Spells;
    var at := dest + p;
    TargetOfNames(dest, name, p);
    NamesUp(at);
    MissingTrack(fs, at);
    OnTrackUp(fs, at);
    assert dest <= Up(at);
    ClimbInside(fs, dest, Up(at));
    PresentDir(fs, dest);
    PresentDir(fs, Climb(fs, dest, Up(at)).value);
    assert SafeArchiveJoin(fs, dest, name) == Some(at);
    MkdirAllReal(fs, at);
    MkdirAllReal(fs, Up(at));
    AllDirsTree(fs, Up(at));
    var fs1 := AllDirs(fs, Up(at));
    AllDirsAt(fs, Up(at), at);
    AllDirsAt(fs, Up(at), dest);
    assert |at| > |Up(at)|;
    RealRootLeads(fs1, dest);
    assert Up(at) == dest + Up(p);
    PutFile(fs1, dest, dest, p, content);
  }
}
