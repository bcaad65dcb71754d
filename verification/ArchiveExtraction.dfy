/** Extraction of uploaded archives into a directory of the file manager. */
module ArchiveExtraction {
  import opened Prelude
  import opened Paths
  import opened FileSystem

  datatype Kind = Directory | Regular | Other

  datatype Entry = Entry(name: string, kind: Kind, content: string)

  /** ensureExistingPathWithinRoot. */
  predicate ExistsInside(fs: Files, root: Path, candidate: Path) {
    var r, c := EvalSymlinks(fs, root), EvalSymlinks(fs, candidate);
    r.Some? && c.Some? && r.value <= c.value
  }

  /** The nearest ancestor that is there, as long as the climb stays inside `root`. */
  function Climb(fs: Files, root: Path, p: Path): Option<Path>
    decreases |p|
  {
    if Lstat(fs, p).Some? then Some(p)
    else if p == [] || !(root <= Up(p)) then None
    else Climb(fs, root, Up(p))
  }

  /** ensureCreatablePathWithinRoot. */
  predicate Creatable(fs: Files, root: Path, candidate: Path) {
    root <= candidate &&
    if Lstat(fs, candidate).Some? then ExistsInside(fs, root, candidate)
    else
      var parent := Climb(fs, root, Up(candidate));
      parent.Some? && ExistsInside(fs, root, parent.value)
  }

  const SLASHES: char -> bool := c => c == '/' || c == '\\'

  /** filepath.Join(dest, filepath.Clean(strings.TrimLeft(name, `/\`))). */
  function Target(dest: Path, name: string): Path {
    Fold(true, dest, CleanParts(TrimLeft(name, SLASHES)))
  }

  function SafeArchiveJoin(fs: Files, dest: Path, name: string): Option<Path> {
    var target := Target(dest, name);
    if target != dest && !(dest != [] && dest < target) then None
    else if !Creatable(fs, dest, target) then None
    else Some(target)
  }

  /** One turn of the extraction loop. */
  function ExtractEntry(fs: Files, dest: Path, e: Entry): Outcome {
    var target := SafeArchiveJoin(fs, dest, e.name);
    if target.None? then Outcome(fs, false)
    else match e.kind
      case Directory => MkdirAll(fs, target.value)
      case Regular =>
        var parent := MkdirAll(fs, Up(target.value));
        if !parent.ok then parent else WriteFile(parent.fs, target.value, e.content)
      case Other => Outcome(fs, true)
  }

  function ExtractAll(fs: Files, dest: Path, entries: seq<Entry>): Outcome
    decreases entries
  {
    if entries == [] then Outcome(fs, true)
    else
      var first := ExtractEntry(fs, dest, entries[0]);
      if !first.ok then first else ExtractAll(first.fs, dest, entries[1..])
  }

  /** Zip entries that are not directories are written as files, links included. */
  function ZipEntry(e: Entry): Entry {
    if e.kind.Directory? then e else e.(kind := Regular)
  }

  class Extractor {
    var fs: Files

    constructor (fs: Files)
      ensures this.fs == fs
    {
      this.fs := fs;
    }

    /** The parent-climbing loop of ensureCreatablePathWithinRoot. */
    method NearestExisting(root: Path, start: Path) returns (found: Option<Path>)
      ensures found == Climb(fs, root, start)
    {
      var parent := start;
      while Lstat(fs, parent).None?
        invariant Climb(fs, root, parent) == Climb(fs, root, start)
        decreases |parent|
      {
        var next := Up(parent);
        if next == parent || !(root <= next) {
          return None;
        }
        parent := next;
      }
      return Some(parent);
    }

    method SafeJoin(dest: Path, name: string) returns (target: Option<Path>)
      ensures target == SafeArchiveJoin(fs, dest, name)
    {
      var t := Target(dest, name);
      if t != dest && !(dest != [] && dest < t) {
        return None;
      }
      if Lstat(fs, t).Some? {
        return if ExistsInside(fs, dest, t) then Some(t) else None;
      }
      if EvalSymlinks(fs, dest).None? {
        return None;
      }
      var parent := NearestExisting(dest, Up(t));
      if parent.None? || !ExistsInside(fs, dest, parent.value) {
        return None;
      }
      return Some(t);
    }

    method ExtractTar(dest: Path, entries: seq<Entry>) returns (ok: bool)
      requires TreeLike(fs) && AllNames(dest)
      modifies this
      ensures Outcome(fs, ok) == ExtractAll(old(fs), dest, entries)
      ensures TreeLike(fs) && Grows(old(fs), fs)
      ensures EvalSymlinks(old(fs), dest).None? ==> fs == old(fs)
      ensures EvalSymlinks(old(fs), dest).Some? ==> Confined(old(fs), fs, EvalSymlinks(old(fs), dest).value)
    {
      hide ExtractEntry, SafeArchiveJoin, TreeLike, Grows, Confined, EvalSymlinks;
      AllConfined(fs, dest, entries);
      for i := 0 to |entries|
        invariant ExtractAll(old(fs), dest, entries) == ExtractAll(fs, dest, entries[i..])
      {
        assert entries[i..][1..] == entries[i + 1..];
        var e := entries[i];
        var target := SafeJoin(dest, e.name);
        EntryUnfolds(fs, dest, e);
        if target.None? {
          return false;
        }
        match e.kind {
          case Directory =>
            var made := MkdirAll(fs, target.value);
            fs := made.fs;
            if !made.ok {
              return false;
            }
          case Regular =>
            var parent := MkdirAll(fs, Up(target.value));
            fs := parent.fs;
            if !parent.ok {
              return false;
            }
            var written := WriteFile(fs, target.value, e.content);
            fs := written.fs;
            if !written.ok {
              return false;
            }
          case Other =>
        }
      }
      assert entries[|entries|..] == [];
      return true;
    }

    method ExtractZip(dest: Path, entries: seq<Entry>) returns (ok: bool)
      requires TreeLike(fs) && AllNames(dest)
      modifies this
      ensures Outcome(fs, ok) == ExtractAll(old(fs), dest, Zip(entries))
      ensures TreeLike(fs) && Grows(old(fs), fs)
      ensures EvalSymlinks(old(fs), dest).None? ==> fs == old(fs)
      ensures EvalSymlinks(old(fs), dest).Some? ==> Confined(old(fs), fs, EvalSymlinks(old(fs), dest).value)
    {
      hide ExtractEntry, SafeArchiveJoin, TreeLike, Grows, Confined, EvalSymlinks;
      AllConfined(fs, dest, Zip(entries));
      for i := 0 to |entries|
        invariant ExtractAll(old(fs), dest, Zip(entries)) == ExtractAll(fs, dest, Zip(entries)[i..])
      {
        assert Zip(entries)[i..][1..] == Zip(entries)[i + 1..];
        var e := entries[i];
        var target := SafeJoin(dest, e.name);
        EntryUnfolds(fs, dest, ZipEntry(e));
        if target.None? {
          return false;
        }
        if e.kind.Directory? {
          var made := MkdirAll(fs, target.value);
          fs := made.fs;
          if !made.ok {
            return false;
          }
          continue;
        }
        var parent := MkdirAll(fs, Up(target.value));
        fs := parent.fs;
        if !parent.ok {
          return false;
        }
        var written := WriteFile(fs, target.value, e.content);
        fs := written.fs;
        if !written.ok {
          return false;
        }
      }
      assert Zip(entries)[|entries|..] == [];
      return true;
    }
  }

  function Zip(entries: seq<Entry>): (zipped: seq<Entry>)
    ensures |zipped| == |entries| && forall i | 0 <= i < |entries| :: zipped[i] == ZipEntry(entries[i])
  {
    seq(|entries|, i requires 0 <= i < |entries| => ZipEntry(entries[i]))
  }

  lemma EntryUnfolds(fs: Files, dest: Path, e: Entry)
    ensures ExtractEntry(fs, dest, e) ==
            var target := SafeArchiveJoin(fs, dest, e.name);
            if target.None? then Outcome(fs, false)
            else if e.kind.Directory? then MkdirAll(fs, target.value)
            else if e.kind.Other? then Outcome(fs, true)
            else
              var parent := MkdirAll(fs, Up(target.value));
              if !parent.ok then parent else WriteFile(parent.fs, target.value, e.content)
  {
    hide SafeArchiveJoin, MkdirAll, WriteFile;
  }

  // ---- Confinement ----

  lemma TargetNames(dest: Path, name: string)
    requires AllNames(dest)
    ensures AllNames(Target(dest, name))
  {
    hide Fold, SplitSlash;
    var s := TrimLeft(name, SLASHES);
    CleanIsNormal(s);
    NormalHasNoSlash(IsRooted(s), CleanParts(s));
    FoldNormal(true, dest, CleanParts(s));
  }

  lemma NormalHasNoSlash(rooted: bool, parts: seq<string>)
    requires Normal(rooted, parts)
    ensures forall i | 0 <= i < |parts| :: '/' !in parts[i]
  {
  }

  /** What every call in the loop keeps. */
  ghost predicate Kept(fs: Files, fs': Files, root: Path) {
    TreeLike(fs') && Grows(fs, fs') && Confined(fs, fs', root)
  }

  lemma KeptNothing(fs: Files, root: Path)
    requires TreeLike(fs)
    ensures Kept(fs, fs, root)
  {
  }

  lemma KeptTwice(a: Files, b: Files, c: Files, root: Path)
    requires Kept(a, b, root) && Kept(b, c, root)
    ensures Kept(a, c, root)
  {
    forall p: Path | !(root <= p) ensures Unchanged(a, c, p) {
      assert Unchanged(a, b, p) && Unchanged(b, c, p);
    }
  }

  lemma ClimbFinds(fs: Files, root: Path, p: Path)
    requires Climb(fs, root, p).Some?
    ensures var found := Climb(fs, root, p).value;
            && found <= p && Lstat(fs, found).Some?
            && (found != p ==> Lstat(fs, p[..|found| + 1]).None?)
    decreases |p|
  {
    if Lstat(fs, p).None? {
      ClimbFinds(fs, root, Up(p));
      var found := Climb(fs, root, p).value;
      if found == Up(p) {
        assert p[..|found| + 1] == p;
      } else {
        assert p[..|found| + 1] == Up(p)[..|found| + 1];
      }
    }
  }

  /** A target that is there: nothing is created, and at most the file it leads to is written. */
  lemma PresentConfined(fs: Files, root: Path, target: Path, content: string)
    requires TreeLike(fs) && AllNames(target) && Lstat(fs, target).Some?
    requires EvalSymlinks(fs, target).Some? && root <= EvalSymlinks(fs, target).value
    ensures MkdirAll(fs, target).fs == fs && MkdirAll(fs, Up(target)) == Outcome(fs, true)
    ensures Kept(fs, WriteFile(fs, target, content).fs, root)
  {
    hide Resolve, ResolveForCreate, MkdirAll;
    assert target + [] == target;
    if Stat(fs, target).Some? && IsDir(fs, Stat(fs, target).value) {
      MkdirAllThere(fs, target);
    } else {
      MkdirAllBlocked(fs, target, []);
    }
    RootStats(fs);
    MkdirAllThere(fs, Up(target));
    CreateFollows(fs, [], target, KERNEL_LINKS, EVAL_LINKS);
    ResolveExists(fs, [], target, EVAL_LINKS);
    WriteKeeps(fs, root, target, content);
  }

  lemma WriteKeeps(fs: Files, root: Path, target: Path, content: string)
    requires TreeLike(fs)
    requires var q := ResolveForCreate(fs, [], target, KERNEL_LINKS);
             q.Some? ==> root <= q.value && (q.value in fs || (q.value != [] && IsDir(fs, Up(q.value)) && IsName(q.value[|q.value| - 1])))
    ensures Kept(fs, WriteFile(fs, target, content).fs, root)
  {
    hide ResolveForCreate;
    var q := ResolveForCreate(fs, [], target, KERNEL_LINKS);
    if q.Some? && !(q.value in fs && !fs[q.value].File?) {
      assert q.value in fs ==> IsDir(fs, Up(q.value)) && IsName(q.value[|q.value| - 1]);
      FileFits(fs, q.value, content);
    }
  }

  lemma FileFits(fs: Files, q: Path, content: string)
    requires TreeLike(fs) && q != [] && IsDir(fs, Up(q)) && IsName(q[|q| - 1])
    requires q in fs ==> fs[q].File?
    ensures TreeLike(fs[q := File(content)])
  {
    assert Up(q) != q;
    var fs' := fs[q := File(content)];
    forall p | p in fs' && p != [] ensures IsDir(fs', Up(p)) && IsName(p[|p| - 1]) {
      assert p == q || p in fs;
      assert IsDir(fs, Up(p));
    }
  }

  /** A missing target: directories are added below the nearest existing ancestor. */
  lemma MissingDirs(fs: Files, root: Path, p: Path, rest: seq<string>)
    requires TreeLike(fs) && AllNames(p + rest) && AllNames(rest) && Lstat(fs, p).Some?
    requires EvalSymlinks(fs, p).Some? && root <= EvalSymlinks(fs, p).value
    requires rest != [] ==> Lstat(fs, p + [rest[0]]).None?
    ensures var made := MkdirAll(fs, p + rest);
            && Kept(fs, made.fs, root)
            && (made.ok ==>
                  var base := EvalSymlinks(fs, p).value;
                  && Stat(made.fs, p + rest) == Some(base + rest) && IsDir(made.fs, base + rest)
                  && Stat(fs, p) == Some(base) && IsDir(fs, base)
                  && made.fs == WithDirs(fs, base, rest)
                  && (rest != [] ==> base + [rest[0]] !in fs))
  {
    hide Resolve, MkdirAll, WithDirs;
    if Stat(fs, p).Some? && IsDir(fs, Stat(fs, p).value) {
      var base := Stat(fs, p).value;
      ResolveMoreLinks(fs, [], p, KERNEL_LINKS, EVAL_LINKS);
      if rest != [] {
        assert Up(p + [rest[0]]) == p;
      }
      MkdirAllBelow(fs, p, base, rest);
      WithDirsFrame(fs, base, rest);
      forall q: Path | !(root <= q) ensures Unchanged(fs, WithDirs(fs, base, rest), q) {
        assert !(base <= q);
      }
    } else {
      MkdirAllBlocked(fs, p, rest);
      KeptNothing(fs, root);
    }
  }

  lemma MissingConfined(fs: Files, root: Path, p: Path, rest: seq<string>, content: string)
    requires TreeLike(fs) && AllNames(p + rest) && Lstat(fs, p).Some? && rest != []
    requires EvalSymlinks(fs, p).Some? && root <= EvalSymlinks(fs, p).value
    requires Lstat(fs, p + [rest[0]]).None?
    ensures Kept(fs, MkdirAll(fs, p + rest).fs, root)
    ensures var parent := MkdirAll(fs, p + Up(rest));
            && Kept(fs, parent.fs, root)
            && (parent.ok ==> Kept(parent.fs, WriteFile(parent.fs, p + rest, content).fs, root))
  {
    hide Resolve, ResolveForCreate, MkdirAll, WithDirs, TreeLike, Grows, Confined, WriteFile, Lstat, Stat;
    NamesBelow(p, rest);
    MissingDirs(fs, root, p, rest);
    MissingDirs(fs, root, p, Up(rest));
    var parent := MkdirAll(fs, p + Up(rest));
    if parent.ok {
      var base := EvalSymlinks(fs, p).value;
      MissingWrite(fs, parent.fs, root, p, base, rest, content);
    }
  }

  lemma NamesBelow(p: Path, rest: seq<string>)
    requires AllNames(p + rest) && rest != []
    ensures AllNames(rest) && AllNames(Up(rest)) && AllNames(p + Up(rest))
    ensures |rest| > 1 ==> Up(rest)[0] == rest[0]
  {
    assert forall i | 0 <= i < |rest| :: rest[i] == (p + rest)[|p| + i];
    assert forall i | 0 <= i < |p| :: p[i] == (p + rest)[i];
  }

  lemma MissingWrite(fs: Files, fs1: Files, root: Path, p: Path, base: Path, rest: seq<string>, content: string)
    requires TreeLike(fs) && TreeLike(fs1) && rest != [] && AllNames(rest) && root <= base
    requires fs1 == WithDirs(fs, base, Up(rest)) && Stat(fs, p) == Some(base) && IsDir(fs, base)
    requires Stat(fs1, p + Up(rest)) == Some(base + Up(rest)) && IsDir(fs1, base + Up(rest))
    requires Up(rest) != [] ==> base + [rest[0]] !in fs
    requires Lstat(fs, p + [rest[0]]).None?
    ensures Kept(fs1, WriteFile(fs1, p + rest, content).fs, root)
  {
    hide Resolve, ResolveForCreate, WithDirs, TreeLike, Grows, Confined, WriteFile;
    var c := rest[|rest| - 1];
    assert rest == Up(rest) + [c] && p + rest == p + Up(rest) + [c];
    assert Up(p + [rest[0]]) == p;
    NextIsMissing(fs, base, rest);
    ResolveSnoc(fs1, [], p + Up(rest), c, KERNEL_LINKS);
    var q := base + Up(rest) + [c];
    assert Up(q) == base + Up(rest);
    WriteKeeps(fs1, root, p + rest, content);
  }

  lemma EntryConfined(fs: Files, dest: Path, e: Entry, root: Path)
    requires TreeLike(fs) && AllNames(dest) && EvalSymlinks(fs, dest) == Some(root)
    ensures var fs' := ExtractEntry(fs, dest, e).fs;
            Kept(fs, fs', root) && EvalSymlinks(fs', dest) == Some(root)
  {
    hide Resolve, MkdirAll, WriteFile, Climb, Target, TreeLike, Grows, Confined, Lstat;
    KeptNothing(fs, root);
    var target := Target(dest, e.name);
    TargetNames(dest, e.name);
    if SafeArchiveJoin(fs, dest, e.name).Some? {
      if Lstat(fs, target).Some? {
        PresentConfined(fs, root, target, e.content);
      } else {
        assert Climb(fs, dest, Up(target)).Some?;
        var p := Climb(fs, dest, Up(target)).value;
        ClimbFinds(fs, dest, Up(target));
        RootThere(fs, target);
        var rest := target[|p|..];
        assert target == p + rest && Up(target) == p + Up(rest);
        assert p + [rest[0]] == target[..|p| + 1];
        if p == Up(target) {
          assert target[..|p| + 1] == target;
        } else {
          assert target[..|p| + 1] == Up(target)[..|p| + 1];
        }
        MissingConfined(fs, root, p, rest, e.content);
        if MkdirAll(fs, Up(target)).ok {
          var fs1 := MkdirAll(fs, Up(target)).fs;
          KeptTwice(fs, fs1, WriteFile(fs1, target, e.content).fs, root);
        }
      }
    }
    ResolveGrows(fs, ExtractEntry(fs, dest, e).fs, [], dest, EVAL_LINKS);
  }

  lemma RootThere(fs: Files, p: Path)
    requires TreeLike(fs) && Lstat(fs, p).None?
    ensures p != []
  {
  }

  lemma EntryRefused(fs: Files, dest: Path, e: Entry)
    requires EvalSymlinks(fs, dest) == None
    ensures ExtractEntry(fs, dest, e) == Outcome(fs, false)
  {
    hide Resolve, MkdirAll, WriteFile, Climb, Target, Lstat;
  }

  /** Whatever the archive and whatever links the file system holds: extraction changes nothing
      outside the real path of the destination, and removes or redirects nothing inside it. */
  lemma {:induction false} AllConfined(fs: Files, dest: Path, entries: seq<Entry>)
    requires TreeLike(fs) && AllNames(dest)
    ensures var fs' := ExtractAll(fs, dest, entries).fs;
            && TreeLike(fs') && Grows(fs, fs')
            && (EvalSymlinks(fs, dest).None? ==> fs' == fs)
            && (EvalSymlinks(fs, dest).Some? ==> Confined(fs, fs', EvalSymlinks(fs, dest).value))
    decreases entries
  {
    hide ExtractEntry, TreeLike, Grows, Confined, EvalSymlinks;
    KeptNothing(fs, []);
    if EvalSymlinks(fs, dest).None? {
      if entries != [] {
        EntryRefused(fs, dest, entries[0]);
      }
    } else {
      var root := EvalSymlinks(fs, dest).value;
      KeptNothing(fs, root);
      if entries != [] {
        EntryConfined(fs, dest, entries[0], root);
        var fs1 := ExtractEntry(fs, dest, entries[0]).fs;
        AllConfined(fs1, dest, entries[1..]);
        if ExtractEntry(fs, dest, entries[0]).ok {
          KeptTwice(fs, fs1, ExtractAll(fs1, dest, entries[1..]).fs, root);
        }
      }
    }
  }

  // ---- An accepted entry is there afterwards ----

  lemma {:induction false} CreatedIsFound(fs: Files, cur: Path, todo: seq<string>, links: nat, content: string)
    requires ResolveForCreate(fs, cur, todo, links).Some?
    requires var q := ResolveForCreate(fs, cur, todo, links).value; q in fs ==> fs[q].File?
    ensures var q := ResolveForCreate(fs, cur, todo, links).value;
            Resolve(fs[q := File(content)], cur, todo, links) == Some(q)
    decreases links, |todo|
  {
    if todo != [] {
      var p := cur + [todo[0]];
      if todo[0] == "" || todo[0] == "." {
        CreatedIsFound(fs, cur, todo[1..], links, content);
      } else if todo[0] == ".." {
        CreatedIsFound(fs, Up(cur), todo[1..], links, content);
      } else if p !in fs {
        assert todo[1..] == [];
      } else if !fs[p].Link? {
        CreatedIsFound(fs, p, todo[1..], links, content);
      } else {
        CreatedIsFound(fs, if IsRooted(fs[p].target) then [] else cur, SplitSlash(fs[p].target) + todo[1..], links - 1, content);
      }
    }
  }

  /** After a successful turn the target leads, inside the destination, to what the entry holds. */
  lemma EntryWritten(fs: Files, dest: Path, e: Entry, root: Path)
    requires TreeLike(fs) && AllNames(dest) && EvalSymlinks(fs, dest) == Some(root)
    requires ExtractEntry(fs, dest, e).ok && e.kind.Regular?
    ensures var fs' := ExtractEntry(fs, dest, e).fs;
            var q := EvalSymlinks(fs', Target(dest, e.name));
            q.Some? && root <= q.value && q.value in fs' && fs'[q.value] == File(e.content)
  {
    hide Resolve, ResolveForCreate, MkdirAll, Target, Climb, Creatable, Lstat, TreeLike;
    var target := Target(dest, e.name);
    EntryConfined(fs, dest, e, root);
    var fs1 := MkdirAll(fs, Up(target)).fs;
    var fs' := ExtractEntry(fs, dest, e).fs;
    CreatedIsFound(fs1, [], target, KERNEL_LINKS, e.content);
    ResolveMoreLinks(fs', [], target, KERNEL_LINKS, EVAL_LINKS);
    WrittenInside(fs, dest, e, root);
  }

  /** The written place is the one the check looked at, or a new entry below the checked ancestor. */
  lemma WrittenInside(fs: Files, dest: Path, e: Entry, root: Path)
    requires TreeLike(fs) && AllNames(dest) && EvalSymlinks(fs, dest) == Some(root)
    requires ExtractEntry(fs, dest, e).ok && e.kind.Regular?
    ensures var target := Target(dest, e.name);
            var q := ResolveForCreate(MkdirAll(fs, Up(target)).fs, [], target, KERNEL_LINKS);
            q.Some? && root <= q.value
  {
    hide Resolve, ResolveForCreate, MkdirAll, Climb, Target, TreeLike, Lstat;
    var target := Target(dest, e.name);
    TargetNames(dest, e.name);
    if Lstat(fs, target).Some? {
      PresentConfined(fs, root, target, e.content);
      CreateFollows(fs, [], target, KERNEL_LINKS, EVAL_LINKS);
    } else {
      var p := Climb(fs, dest, Up(target)).value;
      ClimbFinds(fs, dest, Up(target));
      RootThere(fs, target);
      var rest := target[|p|..];
      var c := rest[|rest| - 1];
      assert target == p + rest && Up(target) == p + Up(rest) && target == p + Up(rest) + [c];
      assert p + [rest[0]] == target[..|p| + 1];
      if p != Up(target) {
        assert target[..|p| + 1] == Up(target)[..|p| + 1];
      } else {
        assert target[..|p| + 1] == target;
      }
      NamesBelow(p, rest);
      MissingDirs(fs, root, p, Up(rest));
      CreatePlace(fs, p, EvalSymlinks(fs, p).value, rest);
    }
  }

  lemma CreatePlace(fs: Files, p: Path, base: Path, rest: seq<string>)
    requires TreeLike(fs) && rest != [] && AllNames(rest)
    requires Stat(fs, p) == Some(base) && IsDir(fs, base) && Lstat(fs, p + [rest[0]]).None?
    requires var fs1 := WithDirs(fs, base, Up(rest));
             Stat(fs1, p + Up(rest)) == Some(base + Up(rest)) && IsDir(fs1, base + Up(rest))
    ensures ResolveForCreate(WithDirs(fs, base, Up(rest)), [], p + rest, KERNEL_LINKS) == Some(base + rest)
  {
    hide Resolve, ResolveForCreate, WithDirs, TreeLike;
    var c := rest[|rest| - 1];
    assert rest == Up(rest) + [c] && p + rest == p + Up(rest) + [c] && base + rest == base + Up(rest) + [c];
    assert Up(p + [rest[0]]) == p;
    NextIsMissing(fs, base, rest);
    ResolveSnoc(WithDirs(fs, base, Up(rest)), [], p + Up(rest), c, KERNEL_LINKS);
  }
}
