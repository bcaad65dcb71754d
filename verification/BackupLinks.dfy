/** Links that never climb above the root: they pass every check, and following them stays inside. */
module BackupLinks {
  import opened Prelude
  import opened Paths
  import opened FileSystem
  import opened Backup
  import opened BackupPaths
  import opened BackupRoundTrip

  /** Leading `..` components. */
  function Ups(parts: seq<string>): nat {
    if parts != [] && parts[0] == ".." then 1 + Ups(parts[1..]) else 0
  }

  /** At most `depth` times up, and never up again after going down. */
  predicate SafeParts(depth: int, parts: seq<string>) {
    Ups(parts) <= depth && forall i | Ups(parts) <= i < |parts| :: parts[i] != ".."
  }

  predicate SafeLink(depth: int, target: string) {
    !IsRooted(target) && SafeParts(depth, SplitSlash(target))
  }

  predicate LinksSafe(p: Path, t: Tree)
    decreases t
  {
    match t
    case Plain(_) => true
    case Symlink(target) => SafeLink(|p| - 1, target)
    case Folder(names, nodes) =>
      forall i | 0 <= i < |names| && i < |nodes| :: LinksSafe(p + [names[i]], nodes[i])
  }

  /** Every link below the base is safe. */
  predicate LinksInside(fs: Files, base: Path) {
    forall q | q in fs && base < q && fs[q].Link? :: SafeLink(|q| - 1 - |base|, fs[q].target)
  }

  lemma {:induction false} UpsBound(parts: seq<string>)
    ensures Ups(parts) <= |parts|
    ensures forall i | 0 <= i < Ups(parts) :: parts[i] == ".."
    decreases parts
  {
    if parts != [] && parts[0] == ".." { UpsBound(parts[1..]); }
  }

  lemma {:induction false} SafeConcat(depth: int, a: seq<string>, b: seq<string>)
    requires SafeParts(depth, a) && forall i | 0 <= i < |b| :: b[i] != ".."
    ensures SafeParts(depth, a + b)
    decreases a
  {
    if a == [] {
      assert a + b == b;
    } else {
      assert (a + b)[1..] == a[1..] + b;
      if a[0] == ".." {
        assert forall i | Ups(a[1..]) <= i < |a[1..]| :: a[1..][i] == a[i + 1];
        SafeConcat(depth - 1, a[1..], b);
        assert forall i | Ups(a + b) <= i < |a + b| :: (a + b)[i] == (a[1..] + b)[i - 1];
      }
    }
  }

  lemma SafeTail(depth: int, parts: seq<string>)
    requires SafeParts(depth, parts) && parts != []
    ensures parts[0] == ".." ==> depth > 0 && SafeParts(depth - 1, parts[1..])
    ensures parts[0] != ".." ==>
              (forall i | 0 <= i < |parts[1..]| :: parts[1..][i] != "..") && forall d: nat :: SafeParts(d, parts[1..])
  {
    var tail := parts[1..];
    assert forall i | 0 <= i < |tail| :: tail[i] == parts[i + 1];
  }

  lemma LinkStaysSafe(fs: Files, base: Path, cur: Path, name: string, rest: seq<string>)
    requires LinksInside(fs, base) && base <= cur && cur + [name] in fs && fs[cur + [name]].Link?
    requires SafeParts(|cur| - |base|, [name] + rest) && name != ".."
    ensures !IsRooted(fs[cur + [name]].target)
    ensures SafeParts(|cur| - |base|, SplitSlash(fs[cur + [name]].target) + rest)
  {
    hide SafeParts, SplitSlash;
    assert base < cur + [name];
    SafeTail(|cur| - |base|, [name] + rest);
    assert ([name] + rest)[1..] == rest;
    SafeConcat(|cur| - |base|, SplitSlash(fs[cur + [name]].target), rest);
  }

  /** Following safe links from inside the base ends inside the base. */
  lemma {:induction false} StaysInside(fs: Files, base: Path, cur: Path, todo: seq<string>, links: nat)
    requires LinksInside(fs, base) && base <= cur && SafeParts(|cur| - |base|, todo)
    ensures var r := Resolve(fs, cur, todo, links); r.Some? ==> base <= r.value
    decreases links, |todo|
  {
    hide SafeParts, LinksInside, SplitSlash;
    if todo != [] && IsDir(fs, cur) {
      SafeTail(|cur| - |base|, todo);
      var p := cur + [todo[0]];
      if todo[0] == "" || todo[0] == "." {
        StaysInside(fs, base, cur, todo[1..], links);
      } else if todo[0] == ".." {
        assert base <= Up(cur);
        StaysInside(fs, base, Up(cur), todo[1..], links);
      } else if p in fs {
        if !fs[p].Link? {
          StaysInside(fs, base, p, todo[1..], links);
        } else if links > 0 {
          assert [todo[0]] + todo[1..] == todo;
          LinkStaysSafe(fs, base, cur, todo[0], todo[1..]);
          StaysInside(fs, base, cur, SplitSlash(fs[p].target) + todo[1..], links - 1);
        }
      }
    }
  }

  // ---- Components that only look like dots ----

  /** pathWithin takes any relative path that begins with two dots for one that climbs. */
  predicate PlainName(c: string) {
    !HasPrefix(c, "..")
  }

  predicate PlainPath(p: Path) {
    forall i | 0 <= i < |p| :: PlainName(p[i])
  }

  predicate PlainTarget(target: string) {
    forall i | 0 <= i < |SplitSlash(target)| :: SplitSlash(target)[i] == ".." || PlainName(SplitSlash(target)[i])
  }

  predicate PlainTree(t: Tree)
    decreases t
  {
    match t
    case Plain(_) => true
    case Symlink(target) => PlainTarget(target)
    case Folder(names, nodes) => PlainPath(names) && forall i | 0 <= i < |nodes| :: PlainTree(nodes[i])
  }

  /** Lexically a safe target never leaves the root, and is made of names from its link and itself. */
  lemma {:induction false} FoldInside(root: Path, cur: Path, parts: seq<string>)
    requires root <= cur && AllNames(cur) && SafeParts(|cur| - |root|, parts)
    requires forall i | 0 <= i < |parts| :: '/' !in parts[i]
    ensures root <= Fold(true, cur, parts) && AllNames(Fold(true, cur, parts))
    ensures PlainPath(cur[|root|..]) && (forall i | 0 <= i < |parts| :: parts[i] == ".." || PlainName(parts[i])) ==>
              PlainPath(Fold(true, cur, parts)[|root|..])
    decreases parts
  {
    hide SafeParts, PlainName;
    if parts != [] {
      SafeTail(|cur| - |root|, parts);
      var next := Push(true, cur, parts[0]);
      if PlainPath(cur[|root|..]) && (forall i | 0 <= i < |parts| :: parts[i] == ".." || PlainName(parts[i])) {
        PushPlain(root, cur, parts[0]);
      }
      FoldInside(root, next, parts[1..]);
    }
  }

  lemma PushPlain(root: Path, cur: Path, c: string)
    requires root <= cur && PlainPath(cur[|root|..]) && (c == ".." || PlainName(c)) && root <= Push(true, cur, c)
    ensures PlainPath(Push(true, cur, c)[|root|..])
  {
    hide PlainName;
    var next := Push(true, cur, c);
    forall i | 0 <= i < |next| - |root| ensures PlainName(next[|root|..][i]) {
      assert next[|root|..][i] == next[|root| + i];
      if |root| + i < |cur| {
        assert cur[|root|..][i] == cur[|root| + i];
      }
    }
  }

  lemma {:induction false} ResolveThrough(fs: Files, base: Path, k: nat, rest: seq<string>, links: nat)
    requires TreeLike(fs) && IsDir(fs, base) && k <= |base|
    ensures Resolve(fs, base[..k], base[k..] + rest, links) == Resolve(fs, base, rest, links)
    decreases |base| - k
  {
    hide TreeLike;
    TreeNames(fs, base);
    if k == |base| {
      assert base[..k] == base && base[k..] + rest == rest;
    } else {
      PrefixIsDir(fs, base, k);
      PrefixIsDir(fs, base, k + 1);
      ResolveThrough(fs, base, k + 1, rest, links);
      assert base[..k] + [base[k]] == base[..k + 1];
      assert (base[k..] + rest)[1..] == base[k + 1..] + rest;
    }
  }

  lemma NamesAreSafe(parts: seq<string>)
    requires AllNames(parts)
    ensures SafeParts(0, parts)
  {
  }

  // ---- Every check passes ----

  predicate PlainFor(root: Path, base: Path, p: Path, t: Tree) {
    root == base || (PlainPath(p) && PlainTree(t))
  }

  /** Any path of names below the base resolves inside it, if at all. */
  lemma NamesStayInside(fs: Files, base: Path, rest: Path)
    requires TreeLike(fs) && IsDir(fs, base) && LinksInside(fs, base) && AllNames(rest)
    ensures var r := EvalSymlinks(fs, base + rest); r.Some? ==> base <= r.value
  {
    hide Resolve, TreeLike, LinksInside, SafeParts;
    ResolveThrough(fs, base, 0, rest, EVAL_LINKS);
    assert base[..0] == [] && base[0..] + rest == base + rest;
    NamesAreSafe(rest);
    StaysInside(fs, base, base, rest, EVAL_LINKS);
  }

  lemma SafeLinkPasses(fs: Files, root: Path, base: Path, p: Path, target: string)
    requires CanPut(fs, root, base, p) && AllNames(root) && LinksInside(fs, base) && SafeLink(|p| - 1, target)
    requires PlainFor(root, base, p, Symlink(target))
    ensures LinkPasses(fs, root, p, target)
  {
    hide Resolve, Fold, SplitSlash, PathWithin, TreeLike, Leads, SafeParts, LinksInside, PlainName;
    var dir := root + Up(p);
    assert Up(root + p) == dir && dir[|root|..] == Up(p);
    FoldInside(root, dir, SplitSlash(target));
    var dest := LinkDestination(root + p, target);
    var rest := dest[|root|..];
    assert dest == root + rest;
    assert forall i | 0 <= i < |rest| :: rest[i] == dest[|root| + i] && IsName(dest[|root| + i]);
    LeadsToDir(fs, root, base);
    NamesStayInside(fs, base, rest);
    PlainIsCarried(root, base, rest);
    WithinRule(fs, root, base, rest);
  }

  lemma PlainIsCarried(root: Path, base: Path, p: Path)
    requires root == base || PlainPath(p)
    ensures p == [] || Carried(root, base, p)
  {
  }

  lemma LeadsToDir(fs: Files, root: Path, base: Path)
    requires Leads(fs, root, base)
    ensures IsDir(fs, base)
  {
  }

  lemma SafeEntryPasses(fs: Files, root: Path, base: Path, p: Path, t: Tree)
    requires CanPut(fs, root, base, p) && AllNames(root) && LinksInside(fs, base) && LinksSafe(p, t)
    requires PlainFor(root, base, p, t)
    ensures Passes(fs, root, p, t)
  {
    hide Resolve, PathWithin, TreeLike, Leads, LinksInside, PlainName, SafeLink, LinkPasses;
    LeadsToDir(fs, root, base);
    NamesStayInside(fs, base, p);
    PlainIsCarried(root, base, p);
    WithinRule(fs, root, base, p);
    if t.Symlink? {
      SafeLinkPasses(fs, root, base, p, t.target);
    }
  }

  lemma {:induction false} SafeRestores(fs: Files, root: Path, base: Path, p: Path, t: Tree)
    requires CanPut(fs, root, base, p) && AllNames(root) && GoodTree(t) && NoClash(fs, base, p, t)
    requires LinksInside(fs, base) && LinksSafe(p, t) && PlainFor(root, base, p, t)
    ensures RestoreAll(fs, root, Walk(p, t)).ok && LinksInside(RestoreAll(fs, root, Walk(p, t)).fs, base)
    decreases t, 1
  {
    hide RestoreEntry, Excluded, Join, TreeLike, Leads, EntryFor, RestoreAll, GoodTree, LinksInside, Fits, PlainName;
    if Excluded(Join(p)) {
      ExcludedWalk(p, t);
      RestoreNone(fs, root);
    } else {
      var fs1 := fs[base + p := NodeOf(t)];
      PutSafe(fs, root, base, p, t);
      if t.Folder? {
        FolderFits(fs, base, p, t);
        var below := WalkAll(p, t.names, t.nodes);
        assert Walk(p, t) == [EntryFor(p, t)] + below;
        RestoreConcat(fs, root, [EntryFor(p, t)], below);
        SafeList(fs1, root, base, p, t.names, t.nodes);
      } else {
        assert Walk(p, t) == [EntryFor(p, t)];
      }
    }
  }

  lemma PutSafe(fs: Files, root: Path, base: Path, p: Path, t: Tree)
    requires CanPut(fs, root, base, p) && AllNames(root) && GoodTree(t) && Fits(fs, base + p, t)
    requires LinksInside(fs, base) && LinksSafe(p, t) && PlainFor(root, base, p, t)
    ensures var fs1 := fs[base + p := NodeOf(t)];
            && RestoreAll(fs, root, [EntryFor(p, t)]) == Outcome(fs1, true)
            && Home(fs1, root, base) && (t.Folder? ==> IsDir(fs1, base + p)) && LinksInside(fs1, base)
  {
    hide RestoreEntry, Excluded, Join, TreeLike, Leads, EntryFor, RestoreAll, GoodTree, Passes, SafeLink, Fits, PlainFor;
    SafeEntryPasses(fs, root, base, p, t);
    PutEntry(fs, root, base, p, t);
    RestoreOne(fs, root, EntryFor(p, t));
    PutKeepsHome(fs, root, base, p, t);
  }

  lemma {:induction false} SafeList(fs: Files, root: Path, base: Path, p: Path, names: seq<string>, nodes: seq<Tree>)
    requires Home(fs, root, base) && AllNames(root) && AllNames(p) && IsDir(fs, base + p)
    requires GoodList(names, nodes) && NoClashes(fs, base, p, names, nodes)
    requires LinksInside(fs, base) && forall i | 0 <= i < |names| :: LinksSafe(p + [names[i]], nodes[i])
    requires forall i | 0 <= i < |names| :: PlainFor(root, base, p + [names[i]], nodes[i])
    ensures var done := RestoreAll(fs, root, WalkAll(p, names, nodes));
            done.ok && LinksInside(done.fs, base)
    decreases nodes, 0
  {
    hide RestoreEntry, Excluded, Join, TreeLike, Leads, Walk, GoodTree, NodeAt, PathOutcome, RestoreAll, LinksSafe,
      LinksInside, NoClash, NoClashes, PlainFor;
    if names == [] {
      RestoreNone(fs, root);
    } else {
      FirstCanBePut(fs, root, base, p, names, nodes);
      SafeRestores(fs, root, base, p + [names[0]], nodes[0]);
      FirstRestored(fs, root, base, p, names, nodes, base);
      var fs1 := RestoreAll(fs, root, Walk(p + [names[0]], nodes[0])).fs;
      RestoreConcat(fs, root, Walk(p + [names[0]], nodes[0]), WalkAll(p, names[1..], nodes[1..]));
      assert forall i | 0 <= i < |names[1..]| :: names[1..][i] == names[i + 1] && nodes[1..][i] == nodes[i + 1];
      SafeList(fs1, root, base, p, names[1..], nodes[1..]);
    }
  }
}
