/** Every message of the sender is answered exactly once, at its last byte, whatever the tree,
    the options and the file system: by an acknowledgement, or by an error that stops the receiver. */
module ScpPacing {
  import opened Prelude
  import opened Numbers
  import opened ScpStore
  import opened ScpReceiver
  import opened ScpSender
  import opened ScpRoundTrip

  ghost predicate IsErrorReply(s: string) {
    exists e :: s == ErrorReply(e)
  }

  /** The receiver is between two messages and `rest` is still to come. */
  ghost predicate Boundary(r: Receiver, rest: seq<string>)
    decreases |rest|, 0
  {
    rest == [] || Mid(r, rest[0], rest[1..])
  }

  /** The bytes `left` of the current message are still to come, then the messages `rest`. */
  ghost predicate Mid(r: Receiver, left: string, rest: seq<string>)
    decreases |rest|, 2 + |left|
  {
    && left != "" && !r.phase.Halted?
    && var next := Feed(r, left[0]);
       if |left| > 1 then next.out == r.out && Mid(next, left[1..], rest)
       else Answered(r, next, rest)
  }

  ghost predicate Answered(r: Receiver, next: Receiver, rest: seq<string>)
    decreases |rest|, 1
  {
    || (next.out == r.out + ACK && Boundary(next, rest))
    || (next.phase == Halted(false) && |r.out| <= |next.out| && next.out[..|r.out|] == r.out
        && IsErrorReply(next.out[|r.out|..]))
  }

  /** What os.FileInfo can report: nine permission bits, a 64-bit size and time. */
  ghost predicate Representable(t: Tree)
    decreases t
  {
    && t.mode < 0x200
    && -INT64_LIMIT <= t.mtime < INT64_LIMIT
    && (t.Leaf? ==> |t.content| < INT64_LIMIT)
    && (t.Folder? ==> forall i | 0 <= i < |t.children| :: Representable(t.children[i]))
  }

  lemma {:induction false} LegalIsRepresentable(t: Tree)
    requires Legal(t)
    ensures Representable(t)
    decreases t
  {
    if t.Folder? {
      forall i | 0 <= i < |t.children| ensures Representable(t.children[i]) {
        LegalIsRepresentable(t.children[i]);
      }
    }
  }

  lemma RefusalAnswers(r: Receiver, e: Error, rest: seq<string>)
    ensures Answered(r, Refuse(r, e), rest)
  {
    assert (r.out + ErrorReply(e))[|r.out|..] == ErrorReply(e);
  }

  lemma {:induction false} LeaveKeepsOutput(r: Receiver)
    ensures Leave(r).out == r.out
    decreases |r.stack|, 0
  {
    if r.stack != [] {
      var caller := r.stack[|r.stack| - 1];
      FinishKeepsOutput(r.(stack := r.stack[..|r.stack| - 1], top := caller.frame), caller.dest, caller.mode);
    }
  }

  lemma {:induction false} FinishKeepsOutput(r: Receiver, dest: Path, mode: nat)
    ensures FinishEntry(r, dest, mode).out == r.out
    decreases |r.stack|, 1
  {
    if !r.top.isDir {
      LeaveKeepsOutput(r.(fs := SetAttributes(r.fs, dest, mode, r.top.pending),
                          top := r.top.(pending := None, received := true),
                          phase := InLine("")));
    }
  }

  lemma {:induction false} PacedLine(r: Receiver, line: string, rest: seq<string>)
    requires r.phase.InLine? && '\n' !in line
    requires Answered(r, Dispatch(r, r.phase.line + line), rest)
    ensures Mid(r, line + "\n", rest)
    decreases line
  {
    hide Dispatch;
    var message := line + "\n";
    if line == "" {
      assert r.phase.line + line == r.phase.line;
    } else {
      var r1 := Feed(r, line[0]);
      assert r1.phase.line + line[1..] == r.phase.line + line;
      DispatchIgnoresPhase(r, r1, r.phase.line + line);
      PacedLine(r1, line[1..], rest);
      assert message[1..] == line[1..] + "\n";
    }
  }

  lemma PacedFullLine(r: Receiver, line: string, rest: seq<string>)
    requires r.phase == InLine("") && '\n' !in line
    requires Answered(r, Dispatch(r, line), rest)
    ensures Boundary(r, [line + "\n"] + rest)
  {
    hide Dispatch, Mid, Answered;
    assert "" + line == line;
    PacedLine(r, line, rest);
    assert ([line + "\n"] + rest)[1..] == rest;
  }

  /** The state after the terminator of a file whose remaining bytes are `data`. */
  function Stored(r: Receiver, dest: Path, mode: nat, data: string): Receiver {
    FinishEntry(Acknowledge(r.(fs := if data == "" then r.fs else Append(r.fs, dest, data),
                               phase := AtTerminator(dest, mode))), dest, mode)
  }

  lemma {:induction false} PacedData(r: Receiver, dest: Path, mode: nat, data: string, rest: seq<string>)
    requires dest in r.fs && r.fs[dest].File?
    requires r.phase == if data == "" then AtTerminator(dest, mode) else InData(dest, mode, |data|)
    requires Boundary(Stored(r, dest, mode, data), rest)
    ensures Mid(r, data + "\0", rest)
    decreases data
  {
    hide FinishEntry, Boundary, Dispatch;
    var message := data + "\0";
    var next := Feed(r, message[0]);
    if data == "" {
      assert r.(fs := r.fs, phase := AtTerminator(dest, mode)) == r;
      FinishKeepsOutput(Acknowledge(r), dest, mode);
      assert next == Stored(r, dest, mode, data);
    } else {
      assert data == [data[0]] + data[1..];
      AppendTwice(r.fs, dest, data[0], data[1..]);
      assert |data| == 1 ==> data == [data[0]];
      assert Stored(next, dest, mode, data[1..]) == Stored(r, dest, mode, data);
      PacedData(next, dest, mode, data[1..], rest);
      assert message[1..] == data[1..] + "\0";
    }
  }

  /** The header line is accepted as sent, or refused. */
  lemma HeaderParsesOrFails(t: Tree)
    requires Representable(t) && '\n' !in t.name
    ensures ParseHeader(HeaderText(t)) == Good(SentHeader(t)) || ParseHeader(HeaderText(t)).Bad?
  {
    hide HeaderText, ParseHeader, ParseUint, ParseInt64, Octal4, Decimal;
    HeaderIsChecked(t);
    if LegalName(t.name) {
      CheckPrintedHeader(t.Folder?, t.mode, SentHeader(t).size, t.name);
    }
  }

  lemma DispatchHeader(r: Receiver, t: Tree)
    requires r.phase == InLine("") && Representable(t) && '\n' !in t.name
    ensures Dispatch(r, HeaderText(t)) == StartEntry(r, SentHeader(t)) ||
            exists e :: Dispatch(r, HeaderText(t)) == Refuse(r, e)
  {
    hide StartEntry, Leave, ParseHeader, HeaderText;
    HeaderParsesOrFails(t);
    HeaderTextFields(t);
    var line := HeaderText(t);
    if ParseHeader(line).Good? {
      DispatchEntry(r, line, SentHeader(t));
    } else {
      DispatchBadEntry(r, line);
    }
  }

  lemma DispatchBadEntry(r: Receiver, line: string)
    requires r.phase == InLine("") && line != "" && (line[0] == 'C' || line[0] == 'D') && ParseHeader(line).Bad?
    ensures Dispatch(r, line) == Refuse(r, ParseHeader(line).error)
  {
    hide StartEntry, Leave, ParseHeader;
    assert r.(phase := InLine("")) == r;
    assert line[0] != 'E';
  }

  // ---- The times line ----

  lemma PacedTimes(r: Receiver, t: Tree, opts: Options, rest: seq<string>)
    requires r.phase == InLine("") && r.top.pending == None && Representable(t)
    requires Boundary(Announced(r, t, opts), rest)
    ensures Boundary(r, TimesMessages(t, opts) + rest)
  {
    hide Mid, FeedAll, Boundary, Dispatch;
    if opts.preserve {
      ParseSentTimes(t);
      var line := TimesText(t);
      DispatchTimes(r, line);
      assert Acks(1) == ACK;
      assert Dispatch(r, line) == Announced(r, t, opts);
      PacedFullLine(r, line, rest);
    } else {
      assert r.out + Acks(0) == r.out;
      assert TimesMessages(t, opts) + rest == rest;
    }
  }

  lemma DispatchTimes(r: Receiver, line: string)
    requires r.phase == InLine("") && line != "" && line[0] == 'T' && ParseTimes(line).Some?
    ensures Dispatch(r, line) == Acknowledge(r.(top := r.top.(pending := ParseTimes(line))))
  {
    hide StartEntry, Leave, ParseHeader, ParseTimes;
    assert r.(phase := InLine("")) == r;
    assert line[0] != 'E';
  }

  // ---- A whole tree ----

  /** Whatever the store holds after the entry, the messages `rest` are paced. */
  ghost predicate Continues(r: Receiver, rest: seq<string>) {
    forall fs: Store, n: nat :: Boundary(Settled(r, fs, n), rest)
  }

  ghost predicate ListContinues(r: Receiver, ts: seq<Tree>, rest: seq<string>) {
    forall fs: Store, n: nat :: Boundary(Listed(r, fs, ts, n), rest)
  }

  function After(script: Script, rest: seq<string>): seq<string> {
    script.messages + if script.ok then rest else []
  }

  lemma AnnouncedContinues(r: Receiver, t: Tree, opts: Options, rest: seq<string>)
    requires r.phase == InLine("") && Continues(r, rest)
    ensures Continues(Announced(r, t, opts), rest)
  {
    hide Boundary, Settled;
    var r1 := Announced(r, t, opts);
    forall fs: Store, n: nat ensures Boundary(Settled(r1, fs, n), rest) {
      SettledAgain(r, r1, fs, |TimesMessages(t, opts)|, n);
    }
  }

  lemma PacedLeaf(r: Receiver, t: Tree, opts: Options, rest: seq<string>)
    requires t.Leaf? && Representable(t) && '\r' !in t.name && '\n' !in t.name
    requires r.phase == InLine("") && r.top.pending == None && Continues(r, rest)
    ensures Boundary(r, After(TreeScript(t, opts), rest))
  {
    hide Boundary, Mid, Dispatch, StartEntry, Settled, FinishEntry, HeaderText;
    var r1 := Announced(r, t, opts);
    AnnouncedContinues(r, t, opts, rest);
    var header, body := HeaderText(t) + "\n", t.content + "\0";
    PacedFile(r1, t, rest);
    PacedTimes(r, t, opts, [header, body] + rest);
    assert After(TreeScript(t, opts), rest) == TimesMessages(t, opts) + ([header, body] + rest);
  }

  lemma PacedFile(r: Receiver, t: Tree, rest: seq<string>)
    requires t.Leaf? && Representable(t) && '\n' !in t.name
    requires r.phase == InLine("") && Continues(r, rest)
    ensures Boundary(r, [HeaderText(t) + "\n", t.content + "\0"] + rest)
  {
    hide Boundary, Mid, Dispatch, StartEntry, Settled, FinishEntry, HeaderText;
    var body := t.content + "\0";
    DispatchHeader(r, t);
    HeaderIsOneLine(t);
    if Dispatch(r, HeaderText(t)) == StartEntry(r, SentHeader(t)) {
      FileAnswered(r, t, rest);
    } else {
      var e :| Dispatch(r, HeaderText(t)) == Refuse(r, e);
      RefusalAnswers(r, e, [body] + rest);
    }
    PacedFullLine(r, HeaderText(t), [body] + rest);
    assert [HeaderText(t) + "\n"] + ([body] + rest) == [HeaderText(t) + "\n", body] + rest;
  }

  lemma FileAnswered(r: Receiver, t: Tree, rest: seq<string>)
    requires t.Leaf? && r.phase == InLine("") && Continues(r, rest)
    ensures Answered(r, StartEntry(r, SentHeader(t)), [t.content + "\0"] + rest)
  {
    hide Mid, Settled, FinishEntry;
    var dest := Destination(r.top, t.name);
    var next := StartEntry(r, SentHeader(t));
    if OpenTruncated(r.fs, dest, t.mode).None? {
      RefusalAnswers(r, StoreRefused, [t.content + "\0"] + rest);
    } else {
      var fs1 := if t.content == "" then next.fs else Append(next.fs, dest, t.content);
      var s := Acknowledge(next.(fs := fs1, phase := AtTerminator(dest, t.mode)));
      AcksConcat(1, 1);
      assert s.out == r.out + Acks(2);
      FinishSettles(r, s, fs1, dest, t.mode, 2);
      PacedData(next, dest, t.mode, t.content, rest);
      assert ([t.content + "\0"] + rest)[1..] == rest;
    }
  }

  lemma {:induction false} PacedTree(r: Receiver, t: Tree, opts: Options, rest: seq<string>)
    requires Representable(t)
    requires r.phase == InLine("") && r.top.pending == None && Continues(r, rest)
    ensures Boundary(r, After(TreeScript(t, opts), rest))
    decreases t, 2
  {
    hide Boundary, Mid, Continues;
    if '\r' in t.name || '\n' in t.name {
      assert After(TreeScript(t, opts), rest) == [];
      NothingLeft(r);
    } else if t.Leaf? {
      PacedLeaf(r, t, opts, rest);
    } else {
      PacedFolder(r, t, opts, rest);
    }
  }

  lemma NothingLeft(r: Receiver)
    ensures Boundary(r, [])
  {
  }

  lemma {:induction false} PacedFolder(r: Receiver, t: Tree, opts: Options, rest: seq<string>)
    requires t.Folder? && Representable(t) && '\r' !in t.name && '\n' !in t.name
    requires r.phase == InLine("") && r.top.pending == None && Continues(r, rest)
    ensures Boundary(r, After(TreeScript(t, opts), rest))
    decreases t, 1
  {
    hide Boundary, Mid, Dispatch, StartEntry, Settled, FinishEntry, HeaderText, Continues;
    var r1 := Announced(r, t, opts);
    var times := TimesMessages(t, opts);
    if !opts.recursive {
      NothingLeft(r1);
      PacedTimes(r, t, opts, []);
      assert After(TreeScript(t, opts), rest) == times + [];
    } else {
      var inner := ListScript(t.children, opts);
      var tail := After(inner, ["E\n"] + rest);
      AnnouncedContinues(r, t, opts, rest);
      PacedDirectory(r1, t, opts, rest);
      PacedTimes(r, t, opts, [HeaderText(t) + "\n"] + tail);
      assert After(TreeScript(t, opts), rest) == times + ([HeaderText(t) + "\n"] + tail);
    }
  }

  lemma {:induction false} PacedDirectory(r: Receiver, t: Tree, opts: Options, rest: seq<string>)
    requires t.Folder? && Representable(t) && '\n' !in t.name && opts.recursive
    requires r.phase == InLine("") && Continues(r, rest)
    ensures Boundary(r, [HeaderText(t) + "\n"] + After(ListScript(t.children, opts), ["E\n"] + rest))
    decreases t, 0
  {
    hide Boundary, Mid, Dispatch, Settled, FinishEntry, HeaderText, Continues, ListContinues;
    var tail := After(ListScript(t.children, opts), ["E\n"] + rest);
    var dest := Destination(r.top, t.name);
    DispatchHeader(r, t);
    HeaderIsOneLine(t);
    var made := MkdirAll(r.fs, dest, t.mode);
    if exists e :: Dispatch(r, HeaderText(t)) == Refuse(r, e) {
      var e :| Dispatch(r, HeaderText(t)) == Refuse(r, e);
      RefusalAnswers(r, e, tail);
    } else if r.recursive && made.Some? {
      var next := Inside(r, made.value, dest, t.mode);
      EndContinues(r, next, dest, t.mode, t.children, rest);
      PacedList(next, t.children, opts, ["E\n"] + rest);
      assert StartEntry(r, SentHeader(t)) == next;
    }
    PacedFullLine(r, HeaderText(t), tail);
  }

  lemma EndContinues(r: Receiver, inside: Receiver, dest: Path, mode: nat, ts: seq<Tree>, rest: seq<string>)
    requires r.phase == InLine("") && Continues(r, rest)
    requires inside == Inside(r, inside.fs, dest, mode)
    ensures ListContinues(inside, ts, ["E\n"] + rest)
  {
    hide Boundary, Mid, Dispatch, Settled, FinishEntry;
    forall fs: Store, n: nat ensures Boundary(Listed(inside, fs, ts, n), ["E\n"] + rest) {
      var last := Listed(inside, fs, ts, n);
      AcksConcat(1, n);
      assert last.out == r.out + Acks(1 + n);
      FeedEnd(r, last, dest, mode, 1 + n);
      FeedFullLine(last, "E");
      assert "E" + "\n" == "E\n";
      EndAnswered(last, rest);
      PacedFullLine(last, "E", rest);
    }
  }

  lemma EndAnswered(r: Receiver, rest: seq<string>)
    requires r.phase == InLine("") && Boundary(Dispatch(r, "E"), rest)
    ensures Answered(r, Dispatch(r, "E"), rest)
  {
    hide Boundary, FinishEntry, Leave;
    assert r.(phase := InLine("")) == r;
    LeaveKeepsOutput(Acknowledge(r));
  }

  lemma {:induction false} PacedList(r: Receiver, ts: seq<Tree>, opts: Options, rest: seq<string>)
    requires forall i | 0 <= i < |ts| :: Representable(ts[i])
    requires r.phase == InLine("") && r.top.pending == None && r.top.isDir && ListContinues(r, ts, rest)
    ensures Boundary(r, After(ListScript(ts, opts), rest))
    decreases ts, 0
  {
    hide Boundary, Mid, TreeScript;
    if ts == [] {
      assert Listed(r, r.fs, ts, 0) == r by { assert r.out + Acks(0) == r.out; }
      assert After(ListScript(ts, opts), rest) == rest;
    } else {
      var first := TreeScript(ts[0], opts);
      var tail := After(ListScript(ts[1..], opts), rest);
      forall fs: Store, n: nat ensures Boundary(Settled(r, fs, n), tail) {
        var r1 := Settled(r, fs, n);
        forall fs': Store, m: nat ensures Boundary(Listed(r1, fs', ts[1..], m), rest) {
          AcksConcat(n, m);
          assert r.out + Acks(n) + Acks(m) == r.out + Acks(n + m);
          assert Listed(r1, fs', ts[1..], m) == Listed(r, fs', ts, n + m);
        }
        PacedList(r1, ts[1..], opts, rest);
      }
      PacedTree(r, ts[0], opts, tail);
      assert After(first, tail) == After(ListScript(ts, opts), rest);
    }
  }
}
