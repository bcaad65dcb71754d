/** Platform backups: the archive writer and the two readers of a restore. */
module Backup {
  import opened Prelude
  import opened Paths
  import opened FileSystem

  const METADATA := ".deploycp-backup"
  const DEPLOY_KEY := ".deploycp/deploy/id_deploy"

  /** A directory tree as filepath.Walk sees it: links are not followed. */
  datatype Tree =
    | Folder(names: seq<string>, nodes: seq<Tree>)
    | Plain(content: string)
    | Symlink(target: string)

  datatype Kind = Directory | Regular | Linked(target: string)

  datatype Entry = Entry(name: string, kind: Kind, content: string)

  /** The relative paths the archive leaves out. */
  predicate Excluded(rel: string) {
    HasPrefix(rel, DEPLOY_KEY) || rel == METADATA || HasPrefix(rel, METADATA + "/")
  }

  predicate GoodTree(t: Tree)
    decreases t
  {
    match t
    case Folder(names, nodes) =>
      && |names| == |nodes|
      && AllNames(names)
      && (forall i, j | 0 <= i < j < |names| :: names[i] != names[j])
      && (forall i | 0 <= i < |nodes| :: GoodTree(nodes[i]))
    case Plain(_) => true
    case Symlink(target) => target != ""
  }

  function EntryFor(p: Path, t: Tree): Entry {
    match t
    case Folder(_, _) => Entry(Join(p), Directory, "")
    case Plain(content) => Entry(Join(p), Regular, content)
    case Symlink(target) => Entry(Join(p), Linked(target), "")
  }

  /** What the walk writes for the node `t` at the relative path `p`, and for everything below it. */
  function Walk(p: Path, t: Tree): seq<Entry>
    decreases t, 1
  {
    (if p == [] || Excluded(Join(p)) then [] else [EntryFor(p, t)])
    + (if t.Folder? then WalkAll(p, t.names, t.nodes) else [])
  }

  function WalkAll(p: Path, names: seq<string>, nodes: seq<Tree>): seq<Entry>
    decreases nodes, 0
  {
    if names == [] || nodes == [] then [] else Walk(p + [names[0]], nodes[0]) + WalkAll(p, names[1..], nodes[1..])
  }

  /** A metadata file in the order the map happened to yield it. */
  datatype Extra = Extra(name: string, content: string)

  predicate SafeExtra(name: string) {
    name != "" && !IsRooted(name) && !HasPrefix(Clean(name), "..")
  }

  function ExtraEntries(extras: seq<Extra>): (es: seq<Entry>)
    ensures |es| == |extras|
    ensures forall i | 0 <= i < |extras| :: es[i] == Entry(Clean(extras[i].name), Regular, extras[i].content)
  {
    seq(|extras|, i requires 0 <= i < |extras| => Entry(Clean(extras[i].name), Regular, extras[i].content))
  }

  function Archive(t: Tree, extras: seq<Extra>): Option<seq<Entry>> {
    if exists i | 0 <= i < |extras| :: !SafeExtra(extras[i].name) then None
    else Some(Walk([], t) + ExtraEntries(extras))
  }

  class TarWriter {
    var entries: seq<Entry>

    constructor ()
      ensures entries == []
    {
      entries := [];
    }

    /** filepath.Walk with the callback of writeTarGz. */
    method WalkTree(p: Path, t: Tree)
      modifies this
      ensures entries == old(entries) + Walk(p, t)
      decreases t, 1
    {
      hide WalkAll, Excluded, Join, EntryFor;
      if p != [] && !Excluded(Join(p)) {
        entries := entries + [EntryFor(p, t)];
      }
      if t.Folder? {
        WalkList(p, t.names, t.nodes);
      }
    }

    method WalkList(p: Path, names: seq<string>, nodes: seq<Tree>)
      modifies this
      ensures entries == old(entries) + WalkAll(p, names, nodes)
      decreases nodes, 0
    {
      hide Walk, Excluded, Join;
      if names != [] && nodes != [] {
        WalkTree(p + [names[0]], nodes[0]);
        WalkList(p, names[1..], nodes[1..]);
      }
    }

    /** writeTarGz; None stands for the error that removes the temporary file. */
    method WriteTarGz(t: Tree, extras: seq<Extra>) returns (archive: Option<seq<Entry>>)
      requires entries == []
      modifies this
      ensures archive == Archive(t, extras)
    {
      hide Walk, WalkAll, SafeExtra, ExtraEntries;
      WalkTree([], t);
      ghost var walked := entries;
      for i := 0 to |extras|
        invariant forall j | 0 <= j < i :: SafeExtra(extras[j].name)
        invariant entries == walked + ExtraEntries(extras)[..i]
      {
        if !SafeExtra(extras[i].name) {
          return None;
        }
        entries := entries + [Entry(Clean(extras[i].name), Regular, extras[i].content)];
      }
      assert ExtraEntries(extras)[..|extras|] == ExtraEntries(extras);
      assert walked == Walk([], t);
      return Some(entries);
    }
  }

  // ---- Reading ----

  /** pathWithin, for clean absolute paths. */
  predicate PathWithin(fs: Files, path: Path, root: Path) {
    var base := EvalSymlinks(fs, root);
    var moved := base.Some? && root < path && !HasPrefix(path[|root|], "..");
    var path1 := if moved then base.value + path[|root|..] else path;
    var root1 := if base.Some? then base.value else root;
    var resolved := EvalSymlinks(fs, path1);
    var path2 := if resolved.Some? then resolved.value else path1;
    path2 == root1 || (root1 != [] && root1 < path2)
  }

  /** os.Remove of one directory entry. */
  function Remove(fs: Files, p: Path): Files {
    var entry := Lstat(fs, p);
    if entry.None? || entry.value == [] then fs
    else if IsDir(fs, entry.value) && exists q | q in fs :: entry.value < q then fs
    else fs - {entry.value}
  }

  /** os.Symlink. */
  function MakeLink(fs: Files, target: string, p: Path): Outcome {
    if p == [] || target == "" then Outcome(fs, false) else
      var d := Stat(fs, Up(p));
      if d.None? || !IsDir(fs, d.value) || d.value + [p[|p| - 1]] in fs then Outcome(fs, false)
      else Outcome(fs[d.value + [p[|p| - 1]] := Link(target)], true)
  }

  /** The name check both readers begin with. */
  predicate SafeName(name: string) {
    !IsRooted(name) && CleanParts(name) != [] && CleanParts(name)[0] != ".."
  }

  function LinkDestination(p: Path, target: string): Path {
    Fold(true, Up(p), SplitSlash(target))
  }

  /** One turn of extractTarGzSafe. */
  function RestoreEntry(fs: Files, root: Path, e: Entry): Outcome {
    if !SafeName(e.name) then Outcome(fs, false) else
      var target := root + CleanParts(e.name);
      if !PathWithin(fs, target, root) then Outcome(fs, false)
      else match e.kind
        case Directory => MkdirAll(fs, target)
        case Regular =>
          var parent := MkdirAll(fs, Up(target));
          if !parent.ok then parent else
            var resolved := EvalSymlinks(parent.fs, Up(target));
            if resolved.Some? && !PathWithin(parent.fs, resolved.value, root) then Outcome(parent.fs, false)
            else WriteFile(parent.fs, target, e.content)
        case Linked(link) =>
          if IsRooted(link) || !PathWithin(fs, LinkDestination(target, link), root) then Outcome(fs, false)
          else MakeLink(Remove(fs, target), link, target)
  }

  /** One turn of extractBackupMetadata. */
  function MetadataEntry(fs: Files, root: Path, e: Entry): Outcome {
    if !SafeName(e.name) then Outcome(fs, false)
    else if CleanParts(e.name)[0] != METADATA then Outcome(fs, true)
    else
      var target := root + CleanParts(e.name);
      if !PathWithin(fs, target, root) then Outcome(fs, false)
      else match e.kind
        case Directory => MkdirAll(fs, target)
        case Regular =>
          var parent := MkdirAll(fs, Up(target));
          if !parent.ok then parent else WriteFile(parent.fs, target, e.content)
        case Linked(_) => Outcome(fs, true)
  }

  function RestoreAll(fs: Files, root: Path, es: seq<Entry>): Outcome
    decreases es
  {
    if es == [] then Outcome(fs, true) else
      var first := RestoreEntry(fs, root, es[0]);
      if !first.ok then first else RestoreAll(first.fs, root, es[1..])
  }

  function MetadataAll(fs: Files, root: Path, es: seq<Entry>): Outcome
    decreases es
  {
    if es == [] then Outcome(fs, true) else
      var first := MetadataEntry(fs, root, es[0]);
      if !first.ok then first else MetadataAll(first.fs, root, es[1..])
  }

  class Restorer {
    var fs: Files

    constructor (fs: Files)
      ensures this.fs == fs
    {
      this.fs := fs;
    }

    /** extractTarGzSafe. */
    method ExtractTarGzSafe(root: Path, entries: seq<Entry>) returns (ok: bool)
      modifies this
      ensures Outcome(fs, ok) == RestoreAll(old(fs), root, entries)
    {
      hide MkdirAll, WriteFile, PathWithin, Remove, MakeLink, LinkDestination, CleanParts, EvalSymlinks;
      for i := 0 to |entries|
        invariant RestoreAll(old(fs), root, entries) == RestoreAll(fs, root, entries[i..])
      {
        assert entries[i..][1..] == entries[i + 1..];
        var e := entries[i];
        if !SafeName(e.name) {
          return false;
        }
        var target := root + CleanParts(e.name);
        if !PathWithin(fs, target, root) {
          return false;
        }
        match e.kind {
          case Directory =>
            var made := MkdirAll(fs, target);
            fs := made.fs;
            if !made.ok {
              return false;
            }
          case Regular =>
            var parent := MkdirAll(fs, Up(target));
            fs := parent.fs;
            if !parent.ok {
              return false;
            }
            var resolved := EvalSymlinks(fs, Up(target));
            if resolved.Some? && !PathWithin(fs, resolved.value, root) {
              return false;
            }
            var written := WriteFile(fs, target, e.content);
            fs := written.fs;
            if !written.ok {
              return false;
            }
          case Linked(link) =>
            if IsRooted(link) || !PathWithin(fs, LinkDestination(target, link), root) {
              return false;
            }
            fs := Remove(fs, target);
            var linked := MakeLink(fs, link, target);
            fs := linked.fs;
            if !linked.ok {
              return false;
            }
        }
      }
      assert entries[|entries|..] == [];
      return true;
    }

    /** extractBackupMetadata. */
    method ExtractBackupMetadata(root: Path, entries: seq<Entry>) returns (ok: bool)
      modifies this
      ensures Outcome(fs, ok) == MetadataAll(old(fs), root, entries)
    {
      hide MkdirAll, WriteFile, PathWithin, CleanParts;
      for i := 0 to |entries|
        invariant MetadataAll(old(fs), root, entries) == MetadataAll(fs, root, entries[i..])
      {
        assert entries[i..][1..] == entries[i + 1..];
        var e := entries[i];
        if !SafeName(e.name) {
          return false;
        }
        if CleanParts(e.name)[0] != METADATA {
          continue;
        }
        var target := root + CleanParts(e.name);
        if !PathWithin(fs, target, root) {
          return false;
        }
        match e.kind {
          case Directory =>
            var made := MkdirAll(fs, target);
            fs := made.fs;
            if !made.ok {
              return false;
            }
          case Regular =>
            var parent := MkdirAll(fs, Up(target));
            fs := parent.fs;
            if !parent.ok {
              return false;
            }
            var written := WriteFile(fs, target, e.content);
            fs := written.fs;
            if !written.ok {
              return false;
            }
          case Linked(_) =>
        }
      }
      assert entries[|entries|..] == [];
      return true;
    }
  }
}
