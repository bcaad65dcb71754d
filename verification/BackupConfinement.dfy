/** Exactly when one restored entry changes nothing outside the root. */
module BackupConfinement {
  import opened Prelude
  import opened Paths
  import opened FileSystem
  import opened Backup
  import opened BackupPaths
  import opened BackupRoundTrip

  // ---- Where MkdirAll works ----

  /** The nearest ancestor of `q` that is there. */
  function Nearest(fs: Files, q: Path): (n: Path)
    ensures n <= q
    decreases |q|
  {
    if q == [] || Lstat(fs, q).Some? then q else Nearest(fs, Up(q))
  }

  lemma {:induction false} NearestIsThere(fs: Files, q: Path)
    requires TreeLike(fs)
    ensures var n := Nearest(fs, q);
            Lstat(fs, n).Some? && (n != q ==> Lstat(fs, n + [q[|n|]]) == None)
    decreases |q|
  {
    hide Resolve, TreeLike;
    RootThere(fs);
    if q != [] && Lstat(fs, q).None? {
      NearestIsThere(fs, Up(q));
      if Nearest(fs, Up(q)) == Up(q) {
        assert Up(q) + [q[|q| - 1]] == q;
      }
    }
  }

  lemma RootThere(fs: Files)
    requires TreeLike(fs)
    ensures Lstat(fs, []).Some?
  {
  }

  /** MkdirAll adds directories below what its nearest ancestor leads to, or fails without a change. */
  lemma MkdirAllExactly(fs: Files, q: Path)
    requires TreeLike(fs) && AllNames(q)
    ensures var n := Nearest(fs, q);
            MkdirAll(fs, q) ==
            if Stat(fs, n).Some? && IsDir(fs, Stat(fs, n).value)
            then Outcome(WithDirs(fs, Stat(fs, n).value, q[|n|..]), true)
            else Outcome(fs, false)
    ensures MissingNext(fs, q)
  {
    hide Resolve, TreeLike, MkdirAll, WithDirs;
    NearestIsThere(fs, q);
    var n := Nearest(fs, q);
    var rest := q[|n|..];
    assert n + rest == q;
    if Stat(fs, n).Some? && IsDir(fs, Stat(fs, n).value) {
      if n != q { NextIsNotThere(fs, n, q[|n|]); }
      MkdirAllBelow(fs, n, Stat(fs, n).value, rest);
    } else {
      MkdirAllBlocked(fs, n, rest);
    }
  }

  /** The first directory that MkdirAll would add is not there yet. */
  predicate MissingNext(fs: Files, q: Path) {
    var n := Nearest(fs, q);
    n != q && Stat(fs, n).Some? && IsDir(fs, Stat(fs, n).value) ==> Stat(fs, n).value + [q[|n|]] !in fs
  }

  lemma NextIsNotThere(fs: Files, n: Path, c: string)
    requires Lstat(fs, n + [c]) == None && Stat(fs, n).Some? && IsDir(fs, Stat(fs, n).value)
    ensures Stat(fs, n).value + [c] !in fs
  {
    hide Resolve;
    assert Up(n + [c]) == n && (n + [c])[|n + [c]| - 1] == c;
  }

  lemma ThereIsNearest(fs: Files, q: Path)
    requires Stat(fs, q).Some? && AllNames(q)
    ensures Nearest(fs, q) == q
  {
    hide Resolve;
    if q != [] {
      assert Up(q) + [q[|q| - 1]] == q;
      ResolvePrefix(fs, [], Up(q), q[|q| - 1], KERNEL_LINKS);
    }
  }

  // ---- When it strays ----

  /** The nearest ancestor leads to a directory outside the root, and directories are missing below it. */
  predicate DirsStray(fs: Files, root: Path, q: Path) {
    var n := Nearest(fs, q);
    n != q && Stat(fs, n).Some? && IsDir(fs, Stat(fs, n).value) && !(root <= Stat(fs, n).value)
  }

  lemma DirsConfinedIff(fs: Files, root: Path, q: Path)
    requires TreeLike(fs) && AllNames(q) && root in fs
    ensures Confined(fs, MkdirAll(fs, q).fs, root) <==> !DirsStray(fs, root, q)
    ensures DirsStray(fs, root, q) ==>
              var first := Stat(fs, Nearest(fs, q)).value + [q[|Nearest(fs, q)|]];
              !(root <= first) && first !in fs && first in MkdirAll(fs, q).fs
  {
    hide Resolve, TreeLike, MkdirAll, WithDirs;
    MkdirAllExactly(fs, q);
    var n := Nearest(fs, q);
    var rest := q[|n|..];
    if Stat(fs, n).Some? && IsDir(fs, Stat(fs, n).value) {
      var d := Stat(fs, n).value;
      if n == q {
        assert rest == [];
        NothingAdded(fs, d);
        NothingChanges(fs, root);
      } else {
        assert rest[0] == q[|n|];
        RestNames(q, n);
        WithDirsFrame(fs, d, rest);
        WithDirsAt(fs, d, rest, d + [rest[0]]);
        FirstAdded(d, rest);
        if !(root <= d) {
          OneMore(root, d, rest[0]);
          assert !Unchanged(fs, MkdirAll(fs, q).fs, d + [rest[0]]);
        }
      }
    }
  }

  lemma OneMore(root: Path, d: Path, c: string)
    ensures root <= d + [c] ==> root <= d || root == d + [c]
  {
  }

  lemma NothingAdded(fs: Files, d: Path)
    ensures WithDirs(fs, d, []) == fs
  {
  }

  lemma RestNames(q: Path, n: Path)
    requires AllNames(q) && n <= q
    ensures AllNames(q[|n|..])
  {
  }

  lemma FirstAdded(d: Path, rest: seq<string>)
    requires rest != []
    ensures Added(d, rest, d + [rest[0]])
  {
    assert (d + [rest[0]])[|d|..] == [rest[0]];
    assert [rest[0]] <= rest;
  }

  /** The parent is a directory inside the root, and the last component is a link that leads to a file yet
      to be created outside. */
  predicate FileStrays(fs: Files, root: Path, target: Path) {
    var d := Stat(fs, Up(target));
    var q := ResolveForCreate(fs, [], target, KERNEL_LINKS);
    d.Some? && IsDir(fs, d.value) && root <= d.value && q.Some? && q.value !in fs && !(root <= q.value)
  }

  /** What open(2) would create but finds there is what the path resolves to. */
  lemma {:induction false} CreateFinds(fs: Files, cur: Path, todo: seq<string>, links: nat)
    requires ResolveForCreate(fs, cur, todo, links).Some? && ResolveForCreate(fs, cur, todo, links).value in fs
    ensures Resolve(fs, cur, todo, links) == ResolveForCreate(fs, cur, todo, links)
    decreases links, |todo|
  {
    if todo != [] && IsDir(fs, cur) {
      var p := cur + [todo[0]];
      if todo[0] == "" || todo[0] == "." {
        CreateFinds(fs, cur, todo[1..], links);
      } else if todo[0] == ".." {
        CreateFinds(fs, Up(cur), todo[1..], links);
      } else if p in fs && fs[p].Link? {
        CreateFinds(fs, if IsRooted(fs[p].target) then [] else cur, SplitSlash(fs[p].target) + todo[1..], links - 1);
      } else if p in fs {
        CreateFinds(fs, p, todo[1..], links);
      }
    }
  }

  lemma WriteConfinedIff(fs: Files, root: Path, p: Path, content: string)
    requires Home(fs, root, root) && AllNames(p) && p != []
    requires PathWithin(fs, root + p, root)
    requires var d := Stat(fs, Up(root + p)); d.Some? && IsDir(fs, d.value) && root <= d.value
    ensures Confined(fs, WriteFile(fs, root + p, content).fs, root) ||
            (FileStrays(fs, root, root + p) && WriteFile(fs, root + p, content).ok)
    ensures FileStrays(fs, root, root + p) ==> !Confined(fs, WriteFile(fs, root + p, content).fs, root)
  {
    hide Resolve, ResolveForCreate, TreeLike, Leads, PathWithin;
    var target := root + p;
    var q := ResolveForCreate(fs, [], target, KERNEL_LINKS);
    if q.Some? {
      if q.value in fs {
        CreateFinds(fs, [], target, KERNEL_LINKS);
        ResolveMoreLinks(fs, [], target, KERNEL_LINKS, EVAL_LINKS);
        RealRootWithin(fs, root, p);
      } else {
        assert q.value in WriteFile(fs, target, content).fs;
        assert FileStrays(fs, root, target) ==> !Unchanged(fs, WriteFile(fs, target, content).fs, q.value);
      }
    }
  }

  lemma RealRootWithin(fs: Files, root: Path, p: Path)
    requires Home(fs, root, root) && p != []
    ensures PathWithin(fs, root + p, root) <==>
            (EvalSymlinks(fs, root + p).None? || root <= EvalSymlinks(fs, root + p).value)
  {
    hide Resolve, TreeLike, Leads, PathWithin;
    WithinRule(fs, root, root, p);
  }

  /** The parent's own check, for a directory that is there. */
  lemma ParentCheck(fs: Files, root: Path, d: Path)
    requires Home(fs, root, root) && d in fs && !fs[d].Link?
    ensures PathWithin(fs, d, root) <==> root <= d
  {
    hide Resolve, TreeLike;
    RootResolves(fs, root, root);
    RealPath(fs, d, EVAL_LINKS);
    if root < d {
      assert root + d[|root|..] == d;
    }
  }

  // ---- One entry ----

  predicate Strays(fs: Files, root: Path, e: Entry) {
    var target := root + CleanParts(e.name);
    SafeName(e.name) && PathWithin(fs, target, root) &&
    match e.kind
    case Directory => DirsStray(fs, root, target)
    case Regular => DirsStray(fs, root, Up(target)) || FileStrays(fs, root, target)
    case Linked(_) => false
  }

  /** A directory or file entry leaves everything outside the root alone exactly when the path it is
      created at does not lead out: neither the nearest existing ancestor, when directories are missing
      below it, nor a dangling link in its own place. */
  lemma EntryConfinedIff(fs: Files, root: Path, e: Entry)
    requires Home(fs, root, root) && !e.kind.Linked?
    ensures Confined(fs, RestoreEntry(fs, root, e).fs, root) <==> !Strays(fs, root, e)
  {
    hide Resolve, ResolveForCreate, TreeLike, Leads, PathWithin, MkdirAll, WriteFile, CleanParts, SafeName, FileStrays,
      DirsStray, EvalSymlinks, Confined;
    NothingChanges(fs, root);
    if SafeName(e.name) {
      var p := CleanParts(e.name);
      SafeNameParts(e.name);
      RootIsThere(fs, root);
      JoinedNames(root, p);
      if PathWithin(fs, root + p, root) {
        match e.kind
        case Directory => DirsConfinedIff(fs, root, root + p);
        case Regular => RegularConfinedIff(fs, root, e);
      }
    }
  }

  lemma NothingChanges(fs: Files, root: Path)
    ensures Confined(fs, fs, root)
  {
  }

  lemma RootIsThere(fs: Files, root: Path)
    requires Home(fs, root, root)
    ensures root in fs && AllNames(root)
  {
    TreeNames(fs, root);
  }

  lemma JoinedNames(root: Path, p: Path)
    requires AllNames(root) && AllNames(p) && p != []
    ensures AllNames(root + p) && Up(root + p) == root + Up(p) && AllNames(root + Up(p))
  {
  }

  lemma RegularConfinedIff(fs: Files, root: Path, e: Entry)
    requires Home(fs, root, root) && e.kind.Regular? && SafeName(e.name)
    requires PathWithin(fs, root + CleanParts(e.name), root)
    ensures Confined(fs, RestoreEntry(fs, root, e).fs, root) <==>
            !DirsStray(fs, root, Up(root + CleanParts(e.name))) && !FileStrays(fs, root, root + CleanParts(e.name))
  {
    hide Resolve, ResolveForCreate, TreeLike, Leads, PathWithin, MkdirAll, WriteFile, CleanParts, SafeName, FileStrays,
      DirsStray, EvalSymlinks, Confined, Nearest;
    var p := CleanParts(e.name);
    SafeNameParts(e.name);
    RootIsThere(fs, root);
    JoinedNames(root, p);
    var parent := Up(root + p);
    DirsConfinedIff(fs, root, parent);
    if Nearest(fs, parent) == parent {
      ParentThere(fs, root, e);
    } else {
      ParentMissing(fs, root, e);
    }
  }

  lemma ParentThere(fs: Files, root: Path, e: Entry)
    requires Home(fs, root, root) && e.kind.Regular? && SafeName(e.name)
    requires PathWithin(fs, root + CleanParts(e.name), root)
    requires Nearest(fs, Up(root + CleanParts(e.name))) == Up(root + CleanParts(e.name))
    ensures Confined(fs, RestoreEntry(fs, root, e).fs, root) <==> !FileStrays(fs, root, root + CleanParts(e.name))
    ensures !DirsStray(fs, root, Up(root + CleanParts(e.name)))
  {
    hide Resolve, ResolveForCreate, TreeLike, Leads, PathWithin, MkdirAll, WriteFile, CleanParts, SafeName, Confined, Nearest,
      WithDirs;
    var p := CleanParts(e.name);
    SafeNameParts(e.name);
    RootIsThere(fs, root);
    JoinedNames(root, p);
    var parent := Up(root + p);
    NothingChanges(fs, root);
    MkdirAllExactly(fs, parent);
    assert parent[|parent|..] == [];
    var d := Stat(fs, parent);
    if d.Some? && IsDir(fs, d.value) {
      NothingAdded(fs, d.value);
      ResolveMoreLinks(fs, [], parent, KERNEL_LINKS, EVAL_LINKS);
      ParentCheck(fs, root, d.value);
      if root <= d.value {
        WriteConfinedIff(fs, root, p, e.content);
      }
    }
  }

  lemma ParentMissing(fs: Files, root: Path, e: Entry)
    requires Home(fs, root, root) && e.kind.Regular? && SafeName(e.name)
    requires PathWithin(fs, root + CleanParts(e.name), root)
    requires Nearest(fs, Up(root + CleanParts(e.name))) != Up(root + CleanParts(e.name))
    ensures Confined(fs, RestoreEntry(fs, root, e).fs, root) <==> !DirsStray(fs, root, Up(root + CleanParts(e.name)))
    ensures !FileStrays(fs, root, root + CleanParts(e.name))
  {
    hide Resolve, ResolveForCreate, TreeLike, Leads, PathWithin, MkdirAll, WriteFile, CleanParts, SafeName, Nearest, EvalSymlinks;
    var p := CleanParts(e.name);
    SafeNameParts(e.name);
    RootIsThere(fs, root);
    JoinedNames(root, p);
    var target := root + p;
    var parent := Up(target);
    if Stat(fs, parent).Some? { ThereIsNearest(fs, parent); }
    DirsConfinedIff(fs, root, parent);
    var made := MkdirAll(fs, parent);
    var written := WriteFile(made.fs, target, e.content);
    NewFilePlace(fs, root, p, e.content);
    if DirsStray(fs, root, parent) {
      var first := Stat(fs, Nearest(fs, parent)).value + [parent[|Nearest(fs, parent)|]];
      assert first in RestoreEntry(fs, root, e).fs;
      assert !Unchanged(fs, RestoreEntry(fs, root, e).fs, first);
    } else {
      TwiceConfined(fs, made.fs, written.fs, root);
    }
  }

  lemma TwiceConfined(a: Files, b: Files, c: Files, root: Path)
    ensures Confined(a, b, root) && Confined(b, c, root) ==> Confined(a, c, root)
  {
    if Confined(a, b, root) && Confined(b, c, root) {
      forall q: Path | !(root <= q) ensures Unchanged(a, c, q) {
        assert Unchanged(a, b, q) && Unchanged(b, c, q);
      }
    }
  }

  /** Below directories just made the file is new, and stands where they stand. */
  lemma NewFilePlace(fs: Files, root: Path, p: Path, content: string)
    requires Home(fs, root, root) && AllNames(p) && p != [] && Up(root + p) == root + Up(p)
    requires Nearest(fs, root + Up(p)) != root + Up(p)
    ensures var made := MkdirAll(fs, root + Up(p));
            var written := WriteFile(made.fs, root + p, content).fs;
            && Grows(made.fs, written)
            && (made.ok && !DirsStray(fs, root, root + Up(p)) ==> Confined(made.fs, written, root))
  {
    hide Resolve, ResolveForCreate, TreeLike, Leads, MkdirAll, Nearest, WithDirs;
    RootIsThere(fs, root);
    JoinedNames(root, p);
    var parent := root + Up(p);
    MkdirAllExactly(fs, parent);
    NearestIsThere(fs, parent);
    var n := Nearest(fs, parent);
    var rest := parent[|n|..];
    assert n + rest == parent && rest[0] == parent[|n|];
    if MkdirAll(fs, parent).ok {
      RestNames(parent, n);
      LastName(p);
      assert root + p == parent + [p[|p| - 1]];
      NewFileBelow(fs, n, Stat(fs, n).value, rest, p[|p| - 1]);
      WithDirsFrame(fs, Stat(fs, n).value, rest);
    }
  }

  lemma NewFileBelow(fs: Files, n: Path, d: Path, rest: seq<string>, c: string)
    requires TreeLike(fs) && AllNames(rest) && IsName(c) && rest != []
    requires Stat(fs, n) == Some(d) && IsDir(fs, d) && d + [rest[0]] !in fs
    ensures var fs1 := WithDirs(fs, d, rest);
            d + rest + [c] !in fs1 && ResolveForCreate(fs1, [], n + rest + [c], KERNEL_LINKS) == Some(d + rest + [c])
  {
    hide Resolve, ResolveForCreate, TreeLike, MkdirAll, WithDirs;
    MkdirAllBelow(fs, n, d, rest);
    WithDirsFrame(fs, d, rest);
    LastIsEmpty(fs, d, rest, c);
    ResolveSnoc(WithDirs(fs, d, rest), [], n + rest, c, KERNEL_LINKS);
  }

  // ---- Inputs ----

  lemma GoDown(fs: Files, cur: Path, c: string, rest: seq<string>, links: nat)
    requires IsDir(fs, cur) && IsName(c)
    ensures var p := cur + [c];
            && Resolve(fs, cur, [c] + rest, links) ==
               (if p !in fs then None
                else if !fs[p].Link? then Resolve(fs, p, rest, links)
                else if links == 0 then None
                else Resolve(fs, if IsRooted(fs[p].target) then [] else cur, SplitSlash(fs[p].target) + rest, links - 1))
            && ResolveForCreate(fs, cur, [c] + rest, links) ==
               (if p !in fs then (if rest == [] then Some(p) else None)
                else if !fs[p].Link? then ResolveForCreate(fs, p, rest, links)
                else if links == 0 then None
                else ResolveForCreate(fs, if IsRooted(fs[p].target) then [] else cur, SplitSlash(fs[p].target) + rest, links - 1))
  {
    assert ([c] + rest)[1..] == rest;
  }

  lemma GoUp(fs: Files, cur: Path, rest: seq<string>, links: nat)
    requires IsDir(fs, cur)
    ensures Resolve(fs, cur, [".."] + rest, links) == Resolve(fs, Up(cur), rest, links)
    ensures ResolveForCreate(fs, cur, [".."] + rest, links) == ResolveForCreate(fs, Up(cur), rest, links)
  {
    assert ([".."] + rest)[1..] == rest;
  }

  lemma Arrived(fs: Files, cur: Path, links: nat)
    ensures Resolve(fs, cur, [], links) == Some(cur) && ResolveForCreate(fs, cur, [], links) == Some(cur)
  {
  }

  /** The home "/r" beside a directory "/o", with one link in it. */
  function Homes(name: string, target: string): Files {
    map[[] := Dir, ["o"] := Dir, ["r"] := Dir, ["r", name] := Link(target)]
  }

  lemma HomesFit(name: string, target: string)
    requires IsName(name)
    ensures Home(Homes(name, target), ["r"], ["r"])
    ensures IsDir(Homes(name, target), []) && IsDir(Homes(name, target), ["o"]) && IsDir(Homes(name, target), ["r"])
  {
    hide Leads;
    var fs := Homes(name, target);
    assert Up(["o"]) == [] && Up(["r"]) == [] && Up(["r", name]) == ["r"] && IsName("o") && IsName("r");
    RealRootLeads(fs, ["r"]);
  }

  /** How the link's path resolves: its target, seen from "/r". */
  lemma HomesLink(name: string, c: string, rest: seq<string>, links: nat)
    requires IsName(name) && IsName(c) && links > 0
    ensures var fs := Homes(name, "../" + c);
            && Resolve(fs, [], ["r", name] + rest, links) == Resolve(fs, [], [c] + rest, links - 1)
            && ResolveForCreate(fs, [], ["r", name] + rest, links) == ResolveForCreate(fs, [], [c] + rest, links - 1)
  {
    hide Resolve, ResolveForCreate, SplitSlash;
    var fs := Homes(name, "../" + c);
    HomesFit(name, "../" + c);
    assert ["r", name] + rest == ["r"] + ([name] + rest);
    GoDown(fs, [], "r", [name] + rest, links);
    assert [] + ["r"] == ["r"] && ["r"] + [name] == ["r", name];
    GoDown(fs, ["r"], name, rest, links);
    SplitConcat("..", c);
    SplitNoSlash(c);
    SplitNoSlash("..");
    assert ".." + "/" + c == "../" + c;
    assert SplitSlash("../" + c) + rest == [".."] + ([c] + rest);
    GoUp(fs, ["r"], [c] + rest, links - 1);
    assert Up(["r"]) == [];
  }

  /** A file entry in the place of a dangling link creates the file the link leads to. */
  lemma DanglingLinkStrays(content: string)
    ensures var fs := Homes("b", "../x");
            var after := RestoreEntry(fs, ["r"], Entry("b", Regular, content));
            && !Confined(fs, after.fs, ["r"])
            && ["x"] !in fs && ResolveForCreate(fs, [], ["r", "b"], KERNEL_LINKS) == Some(["x"])
  {
    hide Resolve, ResolveForCreate, CleanParts, Join, Leads, Homes, TreeLike;
    var fs := Homes("b", "../x");
    HomesFit("b", "../x");
    NameParts(["b"]);
    assert Join(["b"]) == "b" by { JoinOne("b"); }
    assert ["r"] + ["b"] == ["r", "b"] && ["r", "b"] + [] == ["r", "b"] && Up(["r", "b"]) == ["r"];
    HomesHolds("b", "../x", ["x"]);
    assert "../" + "x" == "../x";
    HomesLink("b", "x", [], KERNEL_LINKS);
    HomesLink("b", "x", [], EVAL_LINKS);
    assert [] + ["x"] == ["x"] && ["x"] + [] == ["x"];
    GoDown(fs, [], "x", [], KERNEL_LINKS - 1);
    GoDown(fs, [], "x", [], EVAL_LINKS - 1);
    RealRootWithin(fs, ["r"], ["b"]);
    RealPath(fs, ["r"], KERNEL_LINKS);
    EntryConfinedIff(fs, ["r"], Entry("b", Regular, content));
  }

  lemma JoinOne(c: string)
    ensures Join([c]) == c
  {
  }

  lemma HomesHolds(name: string, target: string, q: Path)
    ensures q in Homes(name, target) <==> q == [] || q == ["o"] || q == ["r"] || q == ["r", name]
  {
  }

  /** A directory entry below a link to a directory beside the home creates it there. */
  lemma LinkedParentStrays()
    ensures var fs := Homes("a", "../o");
            var after := RestoreEntry(fs, ["r"], Entry("a/n", Directory, ""));
            !Confined(fs, after.fs, ["r"]) && Stat(fs, ["r", "a"]) == Some(["o"])
  {
    hide Resolve, ResolveForCreate, CleanParts, Join, Leads, Homes, TreeLike, Nearest;
    var fs := Homes("a", "../o");
    HomesFit("a", "../o");
    NameParts(["a", "n"]);
    assert Join(["a", "n"]) == "a/n" by { JoinTwo("a", "n"); }
    assert ["r"] + ["a", "n"] == ["r", "a", "n"] == ["r", "a"] + ["n"] && ["r", "a"] + [] == ["r", "a"];
    assert Up(["r", "a", "n"]) == ["r", "a"] && [] + ["o"] == ["o"] && ["o"] + [] == ["o"];
    HomesHolds("a", "../o", ["o", "n"]);
    HomesHolds("a", "../o", ["o"]);
    assert "../" + "o" == "../o";
    HomesLink("a", "o", [], KERNEL_LINKS);
    GoDown(fs, [], "o", [], KERNEL_LINKS - 1);
    Arrived(fs, ["o"], KERNEL_LINKS - 1);
    LinkedChild(fs, EVAL_LINKS);
    RealRootWithin(fs, ["r"], ["a", "n"]);
    NearestIsParent(fs);
    OnePrefix("r", "o");
    assert |["r", "a"]| == 2 && |["r", "a", "n"]| == 3;
    assert "r"[0] != "o"[0];
    EntryConfinedIff(fs, ["r"], Entry("a/n", Directory, ""));
  }

  lemma OnePrefix(a: string, b: string)
    ensures [a] <= [b] <==> a == b
  {
    assert [a] <= [b] ==> [a][0] == [b][0];
  }

  lemma JoinTwo(a: string, b: string)
    ensures Join([a, b]) == a + "/" + b
  {
    assert [a, b][1..] == [b];
  }

  lemma LinkedChild(fs: Files, links: nat)
    requires fs == Homes("a", "../o") && links > 0
    ensures Resolve(fs, [], ["r", "a", "n"], links) == None
  {
    hide Resolve, ResolveForCreate;
    HomesFit("a", "../o");
    assert ["r", "a", "n"] == ["r", "a"] + ["n"] && [] + ["o"] == ["o"] && ["o"] + ["n"] == ["o", "n"] && ["n"] + [] == ["n"];
    assert "../" + "o" == "../o";
    HomesLink("a", "o", ["n"], links);
    GoDown(fs, [], "o", ["n"], links - 1);
    GoDown(fs, ["o"], "n", [], links - 1);
  }

  lemma NearestIsParent(fs: Files)
    requires fs == Homes("a", "../o") && Stat(fs, ["r", "a"]) == Some(["o"])
    ensures Nearest(fs, ["r", "a", "n"]) == ["r", "a"]
  {
    hide Resolve;
    HomesFit("a", "../o");
    RealPath(fs, ["r"], KERNEL_LINKS);
    assert Up(["r", "a", "n"]) == ["r", "a"] && Up(["r", "a"]) == ["r"] && ["r"] + ["a"] == ["r", "a"];
    assert ["o"] + ["n"] == ["o", "n"] && ["o", "n"] !in fs;
  }
}
