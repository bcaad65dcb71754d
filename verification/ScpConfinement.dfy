/** What a receiver can change in the store, whatever bytes it is sent. */
module ScpConfinement {
  import opened Prelude
  import opened ScpStore
  import opened ScpReceiver

  // ---- Places ----

  /** One component of a path: not empty, not "." or "..", and without separators and line ends. */
  predicate PlainName(name: string) {
    && |name| > 0
    && !(|name| == 1 && name[0] == '.')
    && !(|name| == 2 && name[0] == '.' && name[1] == '.')
    && forall i | 0 <= i < |name| :: name[i] != '/' && name[i] != '\\' && name[i] != '\r' && name[i] != '\n'
  }

  /** The target, or a place below it that plain names lead to. */
  predicate Below(target: Path, p: Path) {
    |target| <= |p| && p[..|target|] == target && forall i | |target| <= i < |p| :: PlainName(p[i])
  }

  predicate Proper(p: Path, target: Path) {
    |p| < |target| && target[..|p|] == p
  }

  predicate Same(fs: Store, fs': Store, p: Path) {
    p in fs && p in fs' && fs[p] == fs'[p]
  }

  /** What may happen above the target. It had to be missing; then its parent, if there is one, had an entry added
      to it, and if there is none, a directory that was missing is made, or had an entry added to it. */
  predicate LedTo(fs: Store, fs': Store, target: Path, p: Path) {
    && Proper(p, target) && target !in fs && p in fs' && fs'[p].Dir?
    && (Parent(target) in fs ==> p == Parent(target))
    && (p in fs ==> fs[p].Dir? && fs'[p] == Dir(fs[p].mode, None))
  }

  /** Nothing is removed, and every change is at or below the target or leads to it. */
  ghost predicate Confined(fs: Store, fs': Store, target: Path) {
    && (forall p | p in fs :: p in fs')
    && (forall p | p in fs' && !Same(fs, fs', p) :: Below(target, p) || LedTo(fs, fs', target, p))
  }

  lemma NameIsPlain(name: string)
    ensures LegalName(name) <==> PlainName(name)
  {
    assert name == "." <==> |name| == 1 && name[0] == '.';
    assert name == ".." <==> |name| == 2 && name[0] == '.' && name[1] == '.';
    assert (forall i | 0 <= i < |name| :: name[i] in name);
  }

  lemma BelowChild(target: Path, p: Path, name: string)
    requires Below(target, p) && PlainName(name)
    ensures Below(target, p + [name])
  {
    hide PlainName;
  }

  // ---- The operations on the store ----

  /** A change of one node at or below the target. */
  lemma PutConfined(fs0: Store, fs: Store, target: Path, p: Path, node: Node)
    requires Confined(fs0, fs, target) && Below(target, p)
    ensures Confined(fs0, fs[p := node], target)
  {
    hide PlainName;
    var fs' := fs[p := node];
    forall q | q in fs' && !Same(fs0, fs', q) ensures Below(target, q) || LedTo(fs0, fs', target, q) {
      if q != p {
        assert !Same(fs0, fs, q);
      }
    }
  }

  /** A new directory or file at or below the target, or a new directory above it. */
  lemma CreateConfined(fs0: Store, fs: Store, target: Path, p: Path, node: Node)
    requires Confined(fs0, fs, target) && p != [] && p !in fs
    requires Below(target, p) || (Proper(p, target) && target !in fs && Parent(target) !in fs && node.Dir?)
    requires Below(target, Parent(p)) || p == target || Proper(p, target)
    ensures Confined(fs0, Create(fs, p, node), target)
  {
    hide Below, PlainName;
    var fs' := Create(fs, p, node);
    forall q | q in fs' && !Same(fs0, fs', q) ensures Below(target, q) || LedTo(fs0, fs', target, q) {
      if q == p {
      } else if q == Parent(p) && IsDir(fs, q) {
        ParentStep(fs0, fs, target, p);
      } else {
        assert !Same(fs0, fs, q);
      }
    }
  }

  lemma ParentStep(fs0: Store, fs: Store, target: Path, p: Path)
    requires Confined(fs0, fs, target) && p != [] && p !in fs && IsDir(fs, Parent(p))
    requires Below(target, p) || (Proper(p, target) && target !in fs && Parent(target) !in fs)
    requires Below(target, Parent(p)) || p == target || Proper(p, target)
    ensures var fs' := fs[Parent(p) := Dir(fs[Parent(p)].mode, None)];
            Below(target, Parent(p)) || LedTo(fs0, fs', target, Parent(p))
  {
    hide PlainName;
    if !Below(target, Parent(p)) {
      var q := Parent(p);
      assert q == target[..|q|];
      assert Parent(target) in fs0 ==> Parent(target) in fs;
      assert target in fs0 ==> target in fs;
      if !Same(fs0, fs, q) {
        assert LedTo(fs0, fs, target, q);
      }
    }
  }

  lemma {:induction false} MkdirAllConfined(fs0: Store, fs: Store, target: Path, p: Path, mode: nat)
    requires Confined(fs0, fs, target) && MkdirAll(fs, p, mode).Some?
    requires Below(target, p) || (Proper(p, target) && target !in fs && Parent(target) !in fs)
    ensures Confined(fs0, MkdirAll(fs, p, mode).value, target)
    decreases |p|
  {
    hide Below, PlainName, Confined, Create;
    if p !in fs {
      if p == [] {
        RootConfined(fs0, fs, target, mode);
      } else {
        var up := Parent(p);
        ParentPlace(target, p);
        if up !in fs {
          MkdirAllConfined(fs0, fs, target, up, mode);
        }
        var made := MkdirAll(fs, up, mode).value;
        MkdirAllFrame(fs, up, mode);
        CreateConfined(fs0, made, target, p, Dir(mode, None));
      }
    }
  }

  /** The parent of a place at or below the target. */
  lemma ParentPlace(target: Path, p: Path)
    requires p != []
    ensures Below(target, p) ==> Below(target, Parent(p)) || p == target
    ensures p == target || Proper(p, target) ==> Proper(Parent(p), target)
    ensures Proper(p, target) ==> target != []
  {
    hide PlainName;
  }

  lemma RootConfined(fs0: Store, fs: Store, target: Path, mode: nat)
    requires Confined(fs0, fs, target) && [] !in fs
    requires Below(target, []) || (Proper([], target) && target !in fs && Parent(target) !in fs)
    ensures Confined(fs0, fs[[] := Dir(mode, None)], target)
  {
    hide Below, PlainName;
    var fs' := fs[[] := Dir(mode, None)];
    forall q | q in fs' && !Same(fs0, fs', q) ensures Below(target, q) || LedTo(fs0, fs', target, q) {
      if q != [] {
        assert !Same(fs0, fs, q);
      }
    }
  }

  /** Directories are made at prefixes of the path only. */
  lemma {:induction false} MkdirAllFrame(fs: Store, p: Path, mode: nat)
    requires MkdirAll(fs, p, mode).Some?
    ensures forall q | q in MkdirAll(fs, p, mode).value && q !in fs :: |q| <= |p|
    ensures IsDir(MkdirAll(fs, p, mode).value, p)
    decreases |p|
  {
    if p !in fs && p != [] {
      MkdirAllFrame(fs, Parent(p), mode);
    }
  }

  // ---- The receiver ----

  predicate PhaseBelow(target: Path, phase: Phase) {
    match phase
    case InLine(_) => true
    case InData(dest, _, _) => Below(target, dest)
    case AtTerminator(dest, _) => Below(target, dest)
    case Halted(_) => true
  }

  /** Every place the receiver holds is at or below the target. */
  predicate Holds(target: Path, r: Receiver) {
    && Below(target, r.top.target)
    && (forall i | 0 <= i < |r.stack| :: Below(target, r.stack[i].frame.target) && Below(target, r.stack[i].dest))
    && PhaseBelow(target, r.phase)
  }

  ghost predicate Kept(fs: Store, r: Receiver, target: Path) {
    Confined(fs, r.fs, target) && Holds(target, r)
  }

  lemma AttributesConfined(fs0: Store, fs: Store, target: Path, p: Path, mode: nat, times: Option<Times>)
    requires Confined(fs0, fs, target) && Below(target, p)
    ensures Confined(fs0, SetAttributes(fs, p, mode, times), target)
  {
    hide Confined, Below;
    if p in fs {
      PutConfined(fs0, fs, target, p, SetAttributes(fs, p, mode, times)[p]);
    }
  }

  lemma {:induction false} FinishKept(fs: Store, r: Receiver, target: Path, dest: Path, mode: nat)
    requires Kept(fs, r, target) && Below(target, dest)
    ensures Kept(fs, FinishEntry(r, dest, mode), target)
    decreases |r.stack|, 1
  {
    hide Confined, Below, SetAttributes;
    AttributesConfined(fs, r.fs, target, dest, mode, r.top.pending);
    var done := r.(fs := SetAttributes(r.fs, dest, mode, r.top.pending),
                   top := r.top.(pending := None, received := true),
                   phase := InLine(""));
    if !done.top.isDir {
      LeaveKept(fs, done, target);
    }
  }

  lemma {:induction false} LeaveKept(fs: Store, r: Receiver, target: Path)
    requires Kept(fs, r, target)
    ensures Kept(fs, Leave(r), target)
    decreases |r.stack|, 0
  {
    hide Confined, Below;
    if r.stack != [] {
      var caller := r.stack[|r.stack| - 1];
      FinishKept(fs, r.(stack := r.stack[..|r.stack| - 1], top := caller.frame), target, caller.dest, caller.mode);
    }
  }

  lemma DestinationBelow(target: Path, frame: Frame, name: string)
    requires Below(target, frame.target) && PlainName(name)
    ensures Below(target, Destination(frame, name))
  {
    BelowChild(target, frame.target, name);
  }

  lemma OpenConfined(fs0: Store, fs: Store, target: Path, p: Path, mode: nat)
    requires Confined(fs0, fs, target) && Below(target, p) && OpenTruncated(fs, p, mode).Some?
    ensures Confined(fs0, OpenTruncated(fs, p, mode).value, target)
  {
    hide Confined, Below, Create;
    if p in fs {
      PutConfined(fs0, fs, target, p, File("", fs[p].mode, None));
    } else {
      ParentPlace(target, p);
      CreateConfined(fs0, fs, target, p, File("", mode, None));
    }
  }

  lemma StartKept(fs: Store, r: Receiver, h: Header, target: Path)
    requires Kept(fs, r, target) && PlainName(h.name)
    ensures Kept(fs, StartEntry(r, h), target)
  {
    hide Confined, Below, PlainName, Destination, MkdirAll, OpenTruncated;
    var dest := Destination(r.top, h.name);
    DestinationBelow(target, r.top, h.name);
    if h.isDir && MkdirAll(r.fs, dest, h.mode).Some? {
      MkdirAllConfined(fs, r.fs, target, dest, h.mode);
    } else if !h.isDir && OpenTruncated(r.fs, dest, h.mode).Some? {
      OpenConfined(fs, r.fs, target, dest, h.mode);
    }
  }

  lemma HeaderNameIsPlain(line: string)
    requires line != "" && ParseHeader(line).Good?
    ensures PlainName(ParseHeader(line).header.name)
  {
    hide SplitThree, LegalName, PlainName;
    NameIsPlain(ParseHeader(line).header.name);
  }

  lemma DispatchKept(fs: Store, r: Receiver, line: string, target: Path)
    requires Kept(fs, r, target)
    ensures Kept(fs, Dispatch(r, line), target)
  {
    hide Confined, Below, PlainName, Leave, StartEntry, ParseHeader, ParseTimes;
    var r := r.(phase := InLine(""));
    if line == "E" {
      LeaveKept(fs, Acknowledge(r), target);
    } else if line != "" && (line[0] == 'C' || line[0] == 'D') && ParseHeader(line).Good? {
      HeaderNameIsPlain(line);
      StartKept(fs, r, ParseHeader(line).header, target);
    }
  }

  lemma FeedKept(fs: Store, r: Receiver, b: char, target: Path)
    requires Kept(fs, r, target)
    ensures Kept(fs, Feed(r, b), target)
  {
    hide Confined, Below, Dispatch, FinishEntry;
    match r.phase
    case InLine(line) => DispatchKept(fs, r, line, target);
    case InData(dest, mode, left) =>
      if dest in r.fs && r.fs[dest].File? {
        PutConfined(fs, r.fs, target, dest, Append(r.fs, dest, [b])[dest]);
      }
    case AtTerminator(dest, mode) => FinishKept(fs, Acknowledge(r), target, dest, mode);
    case Halted(_) =>
  }

  lemma {:induction false} FeedAllKept(fs: Store, r: Receiver, input: string, target: Path)
    requires Kept(fs, r, target)
    ensures Kept(fs, FeedAll(r, input), target)
    decreases input
  {
    hide Kept, Feed;
    if input != "" {
      FeedKept(fs, r, input[0], target);
      FeedAllKept(fs, Feed(r, input[0]), input[1..], target);
    }
  }

  lemma {:induction false} EndKept(fs: Store, r: Receiver, target: Path)
    requires Kept(fs, r, target)
    ensures Kept(fs, EndOfInput(r), target)
    decreases |r.stack|
  {
    hide Confined, Below, FinishEntry;
    if r.phase.InLine? && r.top.received && r.stack != [] {
      var caller := r.stack[|r.stack| - 1];
      var up := r.(stack := r.stack[..|r.stack| - 1], top := caller.frame);
      FinishKept(fs, up, target, caller.dest, caller.mode);
      EndKept(fs, FinishEntry(up, caller.dest, caller.mode), target);
    }
  }

  /** Whatever it is sent and whatever is in the store, a receiver removes nothing, and changes the store only at its
      target, at places that plain names lead to below it, and on the way to a target that was not there. */
  lemma ReceiverConfined(fs: Store, target: Path, isDir: bool, recursive: bool, input: string)
    ensures Confined(fs, Total(Fresh(fs, target, isDir, recursive), input).fs, target)
  {
    hide FeedAll, EndOfInput;
    var r := Fresh(fs, target, isDir, recursive);
    assert Kept(fs, r, target);
    FeedAllKept(fs, r, input, target);
    EndKept(fs, FeedAll(r, input), target);
  }

  /** Below an existing directory nothing above the target changes; beside a target that was not there, its parent
      keeps everything but its times. */
  lemma OutsideIsKept(fs: Store, fs': Store, target: Path, p: Path)
    requires Confined(fs, fs', target) && !(|target| <= |p| && p[..|target|] == target)
    ensures target in fs ==> (p in fs <==> p in fs') && (p in fs ==> fs'[p] == fs[p])
    ensures target != [] && Parent(target) in fs ==>
              && (p in fs <==> p in fs')
              && (p in fs ==> fs'[p] == fs[p] || (p == Parent(target) && IsDir(fs, p) && fs'[p] == Dir(fs[p].mode, None)))
  {
    hide PlainName;
  }
}
