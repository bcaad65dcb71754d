/** What `Overlay` means path by path: the sent nodes are there, every other path is untouched. */
module ScpOverlay {
  import opened Prelude
  import opened ScpStore
  import opened ScpSender

  predicate Unchanged(fs: Store, fs': Store, q: Path) {
    (q in fs <==> q in fs') && (q in fs ==> fs[q] == fs'[q])
  }

  /** The node that tree `t` holds at the path `p` below its root. */
  function NodeAt(t: Tree, p: Path): Option<Tree>
    decreases t, 1
  {
    if p == [] then Some(t)
    else if t.Leaf? then None
    else ListNodeAt(t.children, p)
  }

  function ListNodeAt(ts: seq<Tree>, p: Path): Option<Tree>
    requires p != []
    decreases ts, 0
  {
    if ts == [] then None
    else if ts[0].name == p[0] then NodeAt(ts[0], p[1..])
    else ListNodeAt(ts[1..], p)
  }

  /** A stored node carries the kind, permissions, content and, with -p, the times of a sent one. */
  predicate Carries(n: Node, t: Tree, preserve: bool) {
    && n.mode == t.mode
    && (preserve ==> n.times == Some(Times(t.mtime, 0, t.mtime, 0)))
    && match t
       case Leaf(_, _, _, content) => n.File? && n.content == content
       case Folder(_, _, _, _) => n.Dir?
  }

  /** No directory is in the place of a sent file, nor a file in the place of a sent directory. */
  predicate NoClash(fs: Store, at: Path, t: Tree)
    decreases t
  {
    match t
    case Leaf(_, _, _, _) => at in fs ==> fs[at].File?
    case Folder(_, _, _, children) =>
      && (at in fs ==> fs[at].Dir?)
      && forall i | 0 <= i < |children| :: NoClash(fs, at + [children[i].name], children[i])
  }

  predicate SameDir(fs: Store, fs': Store, p: Path) {
    IsDir(fs, p) && IsDir(fs', p) && fs[p].mode == fs'[p].mode
  }

  predicate PathOutcome(fs: Store, fs': Store, q: Path, sent: Option<Tree>, preserve: bool) {
    if sent.Some? then q in fs' && Carries(fs'[q], sent.value, preserve) else Unchanged(fs, fs', q)
  }

  lemma {:induction false} NoClashFrame(fs: Store, fs': Store, at: Path, t: Tree)
    requires NoClash(fs, at, t)
    requires forall q: Path | at <= q :: Unchanged(fs, fs', q)
    ensures NoClash(fs', at, t)
    decreases t
  {
    assert Unchanged(fs, fs', at);
    if t.Folder? {
      forall i | 0 <= i < |t.children| ensures NoClash(fs', at + [t.children[i].name], t.children[i]) {
        NoClashFrame(fs, fs', at + [t.children[i].name], t.children[i]);
      }
    }
  }

  lemma LeafOverlay(fs: Store, at: Path, t: Tree, preserve: bool, q: Path)
    requires t.Leaf? && at != [] && IsDir(fs, Parent(at)) && NoClash(fs, at, t)
    ensures Accepts(fs, at, t, preserve)
    ensures var fs' := Overlay(fs, at, t, preserve);
            && SameDir(fs, fs', Parent(at))
            && (q != Parent(at) && q != at ==> Unchanged(fs, fs', q))
            && at in fs' && Carries(fs'[at], t, preserve)
  {
    assert "" + t.content == t.content;
    assert |Parent(at)| != |at|;
  }

  lemma {:induction false} OverlayTree(fs: Store, at: Path, t: Tree, preserve: bool, q: Path)
    requires at != [] && IsDir(fs, Parent(at)) && Legal(t) && NoClash(fs, at, t)
    ensures Accepts(fs, at, t, preserve)
    ensures var fs' := Overlay(fs, at, t, preserve);
            && SameDir(fs, fs', Parent(at))
            && (q != Parent(at) && !(at <= q) ==> Unchanged(fs, fs', q))
            && (at <= q ==> PathOutcome(fs, fs', q, NodeAt(t, q[|at|..]), preserve))
    decreases t, 1
  {
    if t.Leaf? {
      LeafOverlay(fs, at, t, preserve, q);
    } else {
      FolderOverlay(fs, at, t, preserve, q);
    }
  }

  lemma {:induction false} FolderOverlay(fs: Store, at: Path, t: Tree, preserve: bool, q: Path)
    requires t.Folder? && at != [] && IsDir(fs, Parent(at)) && Legal(t) && NoClash(fs, at, t)
    ensures Accepts(fs, at, t, preserve)
    ensures var fs' := Overlay(fs, at, t, preserve);
            && SameDir(fs, fs', Parent(at))
            && (q != Parent(at) && !(at <= q) ==> Unchanged(fs, fs', q))
            && (at <= q ==> PathOutcome(fs, fs', q, NodeAt(t, q[|at|..]), preserve))
    decreases t, 0
  {
    hide OverlayAll, AcceptsAll, ListNodeAt, Legal;
    hide MkdirAll;
    MkdirInPlace(fs, at, t.mode);
    var fs1 := MkdirAll(fs, at, t.mode).value;
    ChildrenLegal(t);
    forall i | 0 <= i < |t.children| ensures NoClash(fs1, at + [t.children[i].name], t.children[i]) {
      NoClashFrame(fs, fs1, at + [t.children[i].name], t.children[i]);
    }
    OverlayList(fs1, at, t.children, preserve, q);
    OverlayList(fs1, at, t.children, preserve, Parent(at));
    if q == at {
      assert q[|at|..] == [];
    } else if q != Parent(at) {
      assert Unchanged(fs, fs1, q);
    }
    if at < q {
      assert q[|at|..] != [] && q != Parent(at);
    }
  }

  lemma MkdirInPlace(fs: Store, at: Path, mode: nat)
    requires at != [] && IsDir(fs, Parent(at)) && (at in fs ==> fs[at].Dir?)
    ensures MkdirAll(fs, at, mode).Some?
    ensures var fs' := MkdirAll(fs, at, mode).value;
            && IsDir(fs', at) && SameDir(fs, fs', Parent(at))
            && forall p: Path | p != at && p != Parent(at) :: Unchanged(fs, fs', p)
  {
    assert MkdirAll(fs, Parent(at), mode) == Some(fs);
  }

  lemma ChildrenLegal(t: Tree)
    requires t.Folder? && Legal(t)
    ensures DistinctNames(t.children) && forall i | 0 <= i < |t.children| :: Legal(t.children[i])
  {
  }

  lemma {:induction false} NotListed(ts: seq<Tree>, p: Path)
    requires p != [] && forall i | 0 <= i < |ts| :: ts[i].name != p[0]
    ensures ListNodeAt(ts, p) == None
    decreases ts
  {
    if ts != [] { NotListed(ts[1..], p); }
  }

  lemma {:induction false} OverlayList(fs: Store, at: Path, ts: seq<Tree>, preserve: bool, q: Path)
    requires IsDir(fs, at) && DistinctNames(ts)
    requires forall i | 0 <= i < |ts| :: Legal(ts[i]) && NoClash(fs, at + [ts[i].name], ts[i])
    ensures AcceptsAll(fs, at, ts, preserve)
    ensures var fs' := OverlayAll(fs, at, ts, preserve);
            && SameDir(fs, fs', at)
            && (q != at && !(at <= q) ==> Unchanged(fs, fs', q))
            && (at < q ==> PathOutcome(fs, fs', q, ListNodeAt(ts, q[|at|..]), preserve))
    decreases ts, 0
  {
    hide Overlay, Accepts, Legal, NoClash;
    if ts != [] {
      var here := at + [ts[0].name];
      var fs1 := Overlay(fs, here, ts[0], preserve);
      assert Parent(here) == at;
      OverlayTree(fs, here, ts[0], preserve, q);
      forall i | 1 <= i < |ts| ensures NoClash(fs1, at + [ts[i].name], ts[i]) {
        var there := at + [ts[i].name];
        forall p: Path | there <= p ensures Unchanged(fs, fs1, p) {
          OverlayTree(fs, here, ts[0], preserve, p);
          assert there[|at|] == p[|at|] && here[|at|] != p[|at|];
        }
        NoClashFrame(fs, fs1, there, ts[i]);
      }
      OverlayList(fs1, at, ts[1..], preserve, q);
      if at < q {
        var rel := q[|at|..];
        if rel[0] == ts[0].name {
          NotListed(ts[1..], rel);
          assert q == at + rel && rel[1..] == q[|here|..];
        }
      }
    }
  }
}
