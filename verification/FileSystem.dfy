/** A file system with directories, regular files and symbolic links, and the calls on it that the
    extractors make. Paths are component lists from the root. */
module FileSystem {
  import opened Prelude
  import opened Paths

  type Path = seq<string>

  datatype Node = Dir | File(content: string) | Link(target: string)

  type Files = map<Path, Node>

  /** The kernel gives up after following this many links. */
  const KERNEL_LINKS: nat := 40
  /** filepath.EvalSymlinks gives up after following this many links. */
  const EVAL_LINKS: nat := 255

  predicate IsDir(fs: Files, p: Path) {
    p in fs && fs[p].Dir?
  }

  function Up(p: Path): Path {
    if p == [] then [] else p[..|p| - 1]
  }

  /** Every node but the root lies in a directory, and entries have proper names. */
  predicate TreeLike(fs: Files) {
    && IsDir(fs, [])
    && forall p {:trigger Up(p)} | p in fs && p != [] :: IsDir(fs, Up(p)) && IsName(p[|p| - 1])
  }

  /** Follow `todo` from the directory `cur`, following at most `links` symbolic links. */
  function Resolve(fs: Files, cur: Path, todo: seq<string>, links: nat): Option<Path>
    decreases links, |todo|
  {
    if todo == [] then Some(cur)
    else if !IsDir(fs, cur) then None
    else if todo[0] == "" || todo[0] == "." then Resolve(fs, cur, todo[1..], links)
    else if todo[0] == ".." then Resolve(fs, Up(cur), todo[1..], links)
    else
      var p := cur + [todo[0]];
      if p !in fs then None
      else if fs[p].Link? then
        if links == 0 then None
        else Resolve(fs, if IsRooted(fs[p].target) then [] else cur, SplitSlash(fs[p].target) + todo[1..], links - 1)
      else Resolve(fs, p, todo[1..], links)
  }

  /** open(2) with O_CREAT: as Resolve, but the last component may be missing. */
  function ResolveForCreate(fs: Files, cur: Path, todo: seq<string>, links: nat): Option<Path>
    decreases links, |todo|
  {
    if todo == [] then Some(cur)
    else if !IsDir(fs, cur) then None
    else if todo[0] == "" || todo[0] == "." then ResolveForCreate(fs, cur, todo[1..], links)
    else if todo[0] == ".." then ResolveForCreate(fs, Up(cur), todo[1..], links)
    else
      var p := cur + [todo[0]];
      if p !in fs then (if |todo| == 1 then Some(p) else None)
      else if fs[p].Link? then
        if links == 0 then None
        else ResolveForCreate(fs, if IsRooted(fs[p].target) then [] else cur, SplitSlash(fs[p].target) + todo[1..], links - 1)
      else ResolveForCreate(fs, p, todo[1..], links)
  }

  function Stat(fs: Files, p: Path): Option<Path> {
    Resolve(fs, [], p, KERNEL_LINKS)
  }

  /** filepath.EvalSymlinks. */
  function EvalSymlinks(fs: Files, p: Path): Option<Path> {
    Resolve(fs, [], p, EVAL_LINKS)
  }

  /** os.Lstat: the place of the directory entry itself. */
  function Lstat(fs: Files, p: Path): Option<Path> {
    if p == [] then (if IsDir(fs, []) then Some([]) else None)
    else
      var d := Stat(fs, Up(p));
      if d.Some? && IsDir(fs, d.value) && d.value + [p[|p| - 1]] in fs then Some(d.value + [p[|p| - 1]]) else None
  }

  /** The file system after a call, and whether the call succeeded. */
  datatype Outcome = Outcome(fs: Files, ok: bool)

  /** os.Mkdir. */
  function Mkdir(fs: Files, p: Path): Outcome {
    if p == [] then Outcome(fs, false) else
      var d := Stat(fs, Up(p));
      if d.None? || !IsDir(fs, d.value) || d.value + [p[|p| - 1]] in fs then Outcome(fs, false)
      else Outcome(fs[d.value + [p[|p| - 1]] := Dir], true)
  }

  /** os.MkdirAll. */
  function MkdirAll(fs: Files, p: Path): Outcome
    decreases |p|
  {
    var there := Stat(fs, p);
    if there.Some? && there.value in fs then Outcome(fs, fs[there.value].Dir?)
    else
      var above := if p == [] then Outcome(fs, true) else MkdirAll(fs, Up(p));
      if !above.ok then above else
        var made := Mkdir(above.fs, p);
        if made.ok then made else
          var entry := Lstat(above.fs, p);
          Outcome(above.fs, entry.Some? && IsDir(above.fs, entry.value))
  }

  /** os.OpenFile with O_CREATE, O_WRONLY and O_TRUNC, then writing `content`. */
  function WriteFile(fs: Files, p: Path, content: string): Outcome {
    var q := ResolveForCreate(fs, [], p, KERNEL_LINKS);
    if q.None? || (q.value in fs && !fs[q.value].File?) then Outcome(fs, false)
    else Outcome(fs[q.value := File(content)], true)
  }

  // ---- Growth: what the extractors do to a file system ----

  /** Directories and links stay, files stay files. */
  predicate Grows(fs: Files, fs': Files) {
    forall p | p in fs :: p in fs' && (fs'[p] == fs[p] || (fs[p].File? && fs'[p].File?))
  }

  predicate Unchanged(fs: Files, fs': Files, p: Path) {
    (p in fs <==> p in fs') && (p in fs ==> fs[p] == fs'[p])
  }

  /** Nothing outside `root` has changed. */
  ghost predicate Confined(fs: Files, fs': Files, root: Path) {
    forall p: Path | !(root <= p) :: Unchanged(fs, fs', p)
  }

  lemma {:induction false} ResolveGrows(fs: Files, fs': Files, cur: Path, todo: seq<string>, links: nat)
    requires Grows(fs, fs')
    ensures Resolve(fs, cur, todo, links).Some? ==> Resolve(fs', cur, todo, links) == Resolve(fs, cur, todo, links)
    decreases links, |todo|
  {
    if todo != [] && IsDir(fs, cur) {
      var p := cur + [todo[0]];
      if todo[0] == "" || todo[0] == "." {
        ResolveGrows(fs, fs', cur, todo[1..], links);
      } else if todo[0] == ".." {
        ResolveGrows(fs, fs', Up(cur), todo[1..], links);
      } else if p in fs {
        if !fs[p].Link? {
          ResolveGrows(fs, fs', p, todo[1..], links);
        } else if links > 0 {
          ResolveGrows(fs, fs', if IsRooted(fs[p].target) then [] else cur, SplitSlash(fs[p].target) + todo[1..], links - 1);
        }
      }
    }
  }

  lemma {:induction false} ResolveMoreLinks(fs: Files, cur: Path, todo: seq<string>, few: nat, many: nat)
    requires few <= many
    ensures Resolve(fs, cur, todo, few).Some? ==> Resolve(fs, cur, todo, many) == Resolve(fs, cur, todo, few)
    decreases few, |todo|
  {
    if todo != [] && IsDir(fs, cur) {
      var p := cur + [todo[0]];
      if todo[0] == "" || todo[0] == "." {
        ResolveMoreLinks(fs, cur, todo[1..], few, many);
      } else if todo[0] == ".." {
        ResolveMoreLinks(fs, Up(cur), todo[1..], few, many);
      } else if p in fs {
        if !fs[p].Link? {
          ResolveMoreLinks(fs, p, todo[1..], few, many);
        } else if few > 0 {
          ResolveMoreLinks(fs, if IsRooted(fs[p].target) then [] else cur, SplitSlash(fs[p].target) + todo[1..], few - 1, many - 1);
        }
      }
    }
  }

  /** Opening an existing path for creation ends where following it ends. */
  lemma {:induction false} CreateFollows(fs: Files, cur: Path, todo: seq<string>, few: nat, many: nat)
    requires few <= many && Resolve(fs, cur, todo, many).Some?
    ensures ResolveForCreate(fs, cur, todo, few).Some? ==>
              ResolveForCreate(fs, cur, todo, few) == Resolve(fs, cur, todo, many)
    decreases few, |todo|
  {
    if todo != [] && IsDir(fs, cur) {
      var p := cur + [todo[0]];
      if todo[0] == "" || todo[0] == "." {
        CreateFollows(fs, cur, todo[1..], few, many);
      } else if todo[0] == ".." {
        CreateFollows(fs, Up(cur), todo[1..], few, many);
      } else if p in fs {
        if !fs[p].Link? {
          CreateFollows(fs, p, todo[1..], few, many);
        } else if few > 0 {
          CreateFollows(fs, if IsRooted(fs[p].target) then [] else cur, SplitSlash(fs[p].target) + todo[1..], few - 1, many - 1);
        }
      }
    }
  }

  /** One more component that is not a link. */
  lemma {:induction false} ResolveSnoc(fs: Files, cur: Path, todo: seq<string>, c: string, links: nat)
    requires Resolve(fs, cur, todo, links).Some? && IsName(c)
    requires var d := Resolve(fs, cur, todo, links).value;
             IsDir(fs, d) && (d + [c] in fs ==> !fs[d + [c]].Link?)
    ensures var d := Resolve(fs, cur, todo, links).value;
            && Resolve(fs, cur, todo + [c], links) == (if d + [c] in fs then Some(d + [c]) else None)
            && ResolveForCreate(fs, cur, todo + [c], links) == Some(d + [c])
    decreases links, |todo|
  {
    if todo == [] {
      assert (todo + [c])[1..] == [];
    } else {
      var p := cur + [todo[0]];
      assert (todo + [c])[1..] == todo[1..] + [c];
      if todo[0] == "" || todo[0] == "." {
        ResolveSnoc(fs, cur, todo[1..], c, links);
      } else if todo[0] == ".." {
        ResolveSnoc(fs, Up(cur), todo[1..], c, links);
      } else if !fs[p].Link? {
        ResolveSnoc(fs, p, todo[1..], c, links);
      } else {
        var via := SplitSlash(fs[p].target);
        assert via + (todo[1..] + [c]) == via + todo[1..] + [c];
        ResolveSnoc(fs, if IsRooted(fs[p].target) then [] else cur, via + todo[1..], c, links - 1);
      }
    }
  }

  /** A path that can be followed can be followed up to its last component. */
  lemma {:induction false} ResolvePrefix(fs: Files, cur: Path, todo: seq<string>, c: string, links: nat)
    requires Resolve(fs, cur, todo + [c], links).Some? && IsName(c)
    ensures Resolve(fs, cur, todo, links).Some?
    ensures var d := Resolve(fs, cur, todo, links).value; IsDir(fs, d) && d + [c] in fs
    decreases links, |todo|
  {
    if todo == [] {
      assert (todo + [c])[1..] == [];
    } else {
      var p := cur + [todo[0]];
      assert (todo + [c])[1..] == todo[1..] + [c];
      if todo[0] == "" || todo[0] == "." {
        ResolvePrefix(fs, cur, todo[1..], c, links);
      } else if todo[0] == ".." {
        ResolvePrefix(fs, Up(cur), todo[1..], c, links);
      } else if !fs[p].Link? {
        ResolvePrefix(fs, p, todo[1..], c, links);
      } else {
        var via := SplitSlash(fs[p].target);
        assert via + (todo[1..] + [c]) == via + todo[1..] + [c];
        ResolvePrefix(fs, if IsRooted(fs[p].target) then [] else cur, via + todo[1..], c, links - 1);
      }
    }
  }

  /** In a tree every path that can be followed leads to a node. */
  lemma {:induction false} ResolveExists(fs: Files, cur: Path, todo: seq<string>, links: nat)
    requires TreeLike(fs) && cur in fs && Resolve(fs, cur, todo, links).Some?
    ensures Resolve(fs, cur, todo, links).value in fs
    decreases links, |todo|
  {
    if todo != [] {
      var p := cur + [todo[0]];
      if todo[0] == "" || todo[0] == "." {
        ResolveExists(fs, cur, todo[1..], links);
      } else if todo[0] == ".." {
        ResolveExists(fs, Up(cur), todo[1..], links);
      } else if !fs[p].Link? {
        ResolveExists(fs, p, todo[1..], links);
      } else {
        ResolveExists(fs, if IsRooted(fs[p].target) then [] else cur, SplitSlash(fs[p].target) + todo[1..], links - 1);
      }
    }
  }

  // ---- What cleaning a path means ----

  /** Where no link is followed, a path that leads anywhere leads where its cleaned form points. */
  lemma {:induction false} CleanedLeads(fs: Files, cur: Path, todo: seq<string>)
    requires TreeLike(fs) && cur in fs
    ensures Resolve(fs, cur, todo, 0).Some? ==> Resolve(fs, cur, todo, 0) == Some(Fold(true, cur, todo))
    decreases |todo|
  {
    if todo != [] && IsDir(fs, cur) && Resolve(fs, cur, todo, 0).Some? {
      var next := if todo[0] == ".." then Up(cur) else if todo[0] == "" || todo[0] == "." then cur else cur + [todo[0]];
      CleanedLeads(fs, next, todo[1..]);
    }
  }

  /** The same for the text of an absolute path. */
  lemma CleanLeads(fs: Files, path: string)
    requires TreeLike(fs) && path != "" && path[0] == '/'
    ensures Resolve(fs, [], SplitSlash(path), 0).Some? ==> Resolve(fs, [], SplitSlash(path), 0) == Some(CleanParts(path))
  {
    CleanedLeads(fs, [], SplitSlash(path));
  }

  // ---- MkdirAll below an existing ancestor ----

  /** `fs` with the directories rest[..1], rest[..2], ... added below `base`. */
  function WithDirs(fs: Files, base: Path, rest: seq<string>): Files
    decreases |rest|
  {
    if rest == [] then fs else WithDirs(fs, base, Up(rest))[base + rest := Dir]
  }

  /** A node below `base` implies every node between. */
  lemma {:induction false} TreePrefix(fs: Files, base: Path, rest: seq<string>)
    requires TreeLike(fs) && rest != [] && base + rest in fs
    ensures base + [rest[0]] in fs
    decreases |rest|
  {
    if |rest| > 1 {
      assert Up(base + rest) == base + Up(rest);
      TreePrefix(fs, base, Up(rest));
    } else {
      assert rest == [rest[0]];
    }
  }

  predicate Added(base: Path, rest: seq<string>, q: Path) {
    base < q && q <= base + rest
  }

  lemma {:induction false} WithDirsAt(fs: Files, base: Path, rest: seq<string>, q: Path)
    ensures var fs' := WithDirs(fs, base, rest);
            && (q in fs' <==> Added(base, rest, q) || q in fs)
            && (q in fs' ==> fs'[q] == if Added(base, rest, q) then Dir else fs[q])
    decreases |rest|
  {
    if rest == [] {
      assert base + rest == base;
    } else {
      WithDirsAt(fs, base, Up(rest), q);
      assert base + rest == base + Up(rest) + [rest[|rest| - 1]];
      if Added(base, rest, q) && q != base + rest {
        assert |q| < |base + rest|;
        assert q == (base + rest)[..|q|] == (base + Up(rest))[..|q|];
      }
    }
  }

  lemma AddedIsNew(fs: Files, base: Path, rest: seq<string>, q: Path)
    requires TreeLike(fs) && Added(base, rest, q)
    requires rest != [] ==> base + [rest[0]] !in fs
    ensures q !in fs
  {
    var below := q[|base|..];
    assert q == base + below && below[0] == rest[0];
    if q in fs {
      TreePrefix(fs, base, below);
    }
  }

  lemma WithDirsTree(fs: Files, base: Path, rest: seq<string>, q: Path)
    requires TreeLike(fs) && IsDir(fs, base) && AllNames(rest)
    requires rest != [] ==> base + [rest[0]] !in fs
    requires q != [] && q in WithDirs(fs, base, rest)
    ensures IsDir(WithDirs(fs, base, rest), Up(q)) && IsName(q[|q| - 1])
  {
    hide WithDirs;
    WithDirsAt(fs, base, rest, q);
    WithDirsAt(fs, base, rest, Up(q));
    if Added(base, rest, q) {
      var k := |q| - |base|;
      assert q == (base + rest)[..|q|];
      assert q[|q| - 1] == rest[k - 1];
      if k > 1 {
        assert Up(q) == (base + rest)[..|q| - 1];
      } else {
        assert Up(q) == base;
        WithDirsAt(fs, base, rest, base);
      }
    }
  }

  lemma WithDirsFrame(fs: Files, base: Path, rest: seq<string>)
    requires TreeLike(fs) && IsDir(fs, base) && AllNames(rest)
    requires rest != [] ==> base + [rest[0]] !in fs
    ensures var fs' := WithDirs(fs, base, rest);
            && TreeLike(fs') && Grows(fs, fs') && Confined(fs, fs', base)
            && IsDir(fs', base + rest)
            && (forall p | p in fs' && fs'[p].Link? :: p in fs && fs[p].Link?)
  {
    hide WithDirs, Added;
    var fs' := WithDirs(fs, base, rest);
    forall q | q in fs' && q != [] ensures IsDir(fs', Up(q)) && IsName(q[|q| - 1]) {
      WithDirsTree(fs, base, rest, q);
    }
    forall q ensures (q in fs' <==> Added(base, rest, q) || q in fs)
                  && (q in fs' ==> fs'[q] == if Added(base, rest, q) then Dir else fs[q]) {
      WithDirsAt(fs, base, rest, q);
    }
    forall q | Added(base, rest, q) ensures q !in fs && base <= q && q != [] {
      AddedIsNew(fs, base, rest, q);
      AddedBelow(base, rest, q);
    }
    AddedLast(base, rest);
  }

  lemma AddedBelow(base: Path, rest: seq<string>, q: Path)
    requires Added(base, rest, q)
    ensures base <= q && q != []
  {
  }

  lemma AddedLast(base: Path, rest: seq<string>)
    ensures rest != [] ==> Added(base, rest, base + rest)
    ensures rest == [] ==> base + rest == base
  {
  }

  /** The last directory added is empty. */
  lemma LastIsEmpty(fs: Files, base: Path, rest: seq<string>, c: string)
    requires TreeLike(fs) && rest != [] && base + [rest[0]] !in fs
    ensures base + rest + [c] !in WithDirs(fs, base, rest)
  {
    WithDirsAt(fs, base, rest, base + rest + [c]);
    assert |base + rest + [c]| > |base + rest|;
    var below := rest + [c];
    assert base + rest + [c] == base + below && below[0] == rest[0];
    if base + below in fs {
      TreePrefix(fs, base, below);
    }
  }

  /** MkdirAll below an ancestor that is a directory makes exactly the missing directories. */
  lemma {:induction false} MkdirAllBelow(fs: Files, p: Path, base: Path, rest: seq<string>)
    requires TreeLike(fs) && AllNames(rest)
    requires Stat(fs, p) == Some(base) && IsDir(fs, base)
    requires rest != [] ==> base + [rest[0]] !in fs
    ensures MkdirAll(fs, p + rest) == Outcome(WithDirs(fs, base, rest), true)
    ensures Stat(WithDirs(fs, base, rest), p + rest) == Some(base + rest)
    decreases |rest|
  {
    hide Resolve, Mkdir, Confined, Grows;
    if rest == [] {
      assert p + rest == p && base + rest == base;
    } else {
      hide MkdirAll, WithDirs, TreeLike;
      var front, c := Up(rest), rest[|rest| - 1];
      var fs1 := WithDirs(fs, base, front);
      assert rest == front + [c];
      assert p + rest == p + front + [c] && base + rest == base + front + [c];
      MkdirAllBelow(fs, p, base, front);
      WithDirsFrame(fs, base, front);
      NotThere(fs, p, base, rest);
      NextIsMissing(fs, base, rest);
      MkdirOne(fs1, p + front, base + front, c);
      MkdirAllStep(fs, p + front, c);
      WithDirsStep(fs, base, front, c);
    }
  }

  lemma WithDirsStep(fs: Files, base: Path, front: seq<string>, c: string)
    ensures WithDirs(fs, base, front + [c]) == WithDirs(fs, base, front)[base + front + [c] := Dir]
  {
    assert Up(front + [c]) == front && base + (front + [c]) == base + front + [c];
  }

  lemma NextIsMissing(fs: Files, base: Path, rest: seq<string>)
    requires TreeLike(fs) && rest != [] && base + [rest[0]] !in fs
    ensures base + Up(rest) + [rest[|rest| - 1]] !in WithDirs(fs, base, Up(rest))
  {
    if Up(rest) == [] {
      assert base + Up(rest) + [rest[|rest| - 1]] == base + [rest[0]];
    } else {
      LastIsEmpty(fs, base, Up(rest), rest[|rest| - 1]);
    }
  }

  lemma MkdirAllStep(fs: Files, q: Path, c: string)
    requires Stat(fs, q + [c]) == None && MkdirAll(fs, q).ok && Mkdir(MkdirAll(fs, q).fs, q + [c]).ok
    ensures MkdirAll(fs, q + [c]) == Mkdir(MkdirAll(fs, q).fs, q + [c])
  {
    assert Up(q + [c]) == q;
  }

  lemma MkdirOne(fs: Files, q: Path, d: Path, c: string)
    requires Stat(fs, q) == Some(d) && IsDir(fs, d) && d + [c] !in fs && IsName(c)
    ensures var fs' := fs[d + [c] := Dir];
            Mkdir(fs, q + [c]) == Outcome(fs', true) && Stat(fs', q + [c]) == Some(d + [c])
  {
    hide Resolve;
    var fs' := fs[d + [c] := Dir];
    assert Up(q + [c]) == q && (q + [c])[|q + [c]| - 1] == c;
    ResolveGrows(fs, fs', [], q, KERNEL_LINKS);
    ResolveSnoc(fs', [], q, c, KERNEL_LINKS);
  }

  lemma NotThere(fs: Files, p: Path, base: Path, rest: seq<string>)
    requires TreeLike(fs) && AllNames(rest) && rest != []
    requires Stat(fs, p) == Some(base) && IsDir(fs, base) && base + [rest[0]] !in fs
    ensures Stat(fs, p + rest) == None
    decreases |rest|
  {
    hide Resolve;
    var front, c := Up(rest), rest[|rest| - 1];
    assert p + rest == p + front + [c];
    if front == [] {
      assert p + front == p && c == rest[0];
      ResolveSnoc(fs, [], p, c, KERNEL_LINKS);
    } else {
      NotThere(fs, p, base, front);
      if Stat(fs, p + rest).Some? {
        ResolvePrefix(fs, [], p + front, c, KERNEL_LINKS);
      }
    }
  }

  /** MkdirAll below something that is there but is not a directory changes nothing and fails. */
  lemma {:induction false} MkdirAllBlocked(fs: Files, p: Path, rest: seq<string>)
    requires TreeLike(fs) && AllNames(p + rest)
    requires Lstat(fs, p).Some? && !(Stat(fs, p).Some? && IsDir(fs, Stat(fs, p).value))
    ensures MkdirAll(fs, p + rest) == Outcome(fs, false)
    decreases |rest|
  {
    hide Resolve, TreeLike, MkdirAll, Lstat;
    if rest == [] {
      assert p + rest == p;
      BlockedHere(fs, p);
    } else {
      var c := rest[|rest| - 1];
      var q := p + Up(rest);
      assert p + rest == q + [c];
      assert forall i | 0 <= i < |q| :: q[i] == (p + rest)[i];
      assert c == (p + rest)[|p + rest| - 1];
      MkdirAllBlocked(fs, p, Up(rest));
      if Stat(fs, q + [c]).Some? {
        ResolvePrefix(fs, [], q, c, KERNEL_LINKS);
        MkdirAllThere(fs, q);
      } else {
        MkdirAllFails(fs, q, c);
      }
    }
  }

  lemma MkdirAllThere(fs: Files, q: Path)
    requires Stat(fs, q).Some? && IsDir(fs, Stat(fs, q).value)
    ensures MkdirAll(fs, q) == Outcome(fs, true)
  {
    hide Resolve;
  }

  lemma MkdirAllFails(fs: Files, q: Path, c: string)
    requires Stat(fs, q + [c]) == None && !MkdirAll(fs, q).ok
    ensures MkdirAll(fs, q + [c]) == MkdirAll(fs, q)
  {
    assert Up(q + [c]) == q;
  }

  lemma BlockedHere(fs: Files, p: Path)
    requires TreeLike(fs) && AllNames(p)
    requires Lstat(fs, p).Some? && !(Stat(fs, p).Some? && IsDir(fs, Stat(fs, p).value))
    ensures MkdirAll(fs, p) == Outcome(fs, false)
  {
    hide Resolve;
    RootStats(fs);
    var c := p[|p| - 1];
    var d := Stat(fs, Up(p)).value;
    assert p == Up(p) + [c];
    if Stat(fs, p).Some? {
      ResolveExists(fs, [], p, KERNEL_LINKS);
    } else if !fs[d + [c]].Link? {
      ResolveSnoc(fs, [], Up(p), c, KERNEL_LINKS);
    }
    assert MkdirAll(fs, Up(p)) == Outcome(fs, true);
  }

  lemma RootStats(fs: Files)
    ensures Stat(fs, []) == Some([])
  {
  }
}
