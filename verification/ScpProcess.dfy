/** The receiving half as the source writes it: loops and recursion over a blocking reader. */
module ScpProcess {
  import opened Prelude
  import opened ScpStore
  import opened ScpReceiver
  import opened ScpConfinement

  /** A buffered reader over everything the peer will ever write. */
  class ByteReader {
    const data: string
    var pos: nat

    ghost predicate Valid()
      reads this
    {
      pos <= |data|
    }

    function Rest(): string
      requires Valid()
      reads this
    {
      data[pos..]
    }

    constructor (data: string)
      ensures Valid() && pos == 0 && this.data == data
    {
      this.data := data;
      pos := 0;
    }

    /** ReadString('\n') without the newline; None at the end of the input. */
    method ReadLine() returns (line: Option<string>)
      requires Valid()
      modifies this
      ensures Valid()
      ensures line.None? ==> '\n' !in old(Rest()) && Rest() == ""
      ensures line.Some? ==> '\n' !in line.value && old(Rest()) == line.value + "\n" + Rest()
      ensures line.Some? ==> pos > old(pos)
    {
      var rest := Rest();
      var i := IndexOf(rest, '\n');
      if i == |rest| {
        line := None;
        pos := |data|;
      } else {
        line := Some(rest[..i]);
        assert rest == rest[..i] + "\n" + rest[i + 1..];
        pos := pos + i + 1;
        assert Rest() == rest[i + 1..];
      }
    }

    method ReadByte() returns (b: Option<char>)
      requires Valid()
      modifies this
      ensures Valid() && pos >= old(pos)
      ensures b.None? ==> old(Rest()) == "" && Rest() == ""
      ensures b.Some? ==> old(Rest()) == [b.value] + Rest()
    {
      if pos == |data| {
        b := None;
      } else {
        b := Some(data[pos]);
        pos := pos + 1;
      }
    }

    /** io.CopyN's reads: n bytes, or all there are. */
    method ReadUpTo(n: nat) returns (chunk: string)
      requires Valid()
      modifies this
      ensures Valid() && pos >= old(pos)
      ensures old(Rest()) == chunk + Rest()
      ensures |chunk| <= n && (|chunk| < n ==> Rest() == "")
    {
      var rest := Rest();
      var k := if n < |rest| then n else |rest|;
      chunk := rest[..k];
      pos := pos + k;
      assert Rest() == rest[k..];
    }
  }

  // ---- The receiver against its byte-fed machine ----

  lemma TotalLine(r: Receiver, line: string, rest: string)
    requires r.phase == InLine("") && '\n' !in line
    ensures Total(r, line + "\n" + rest) == Total(Dispatch(r, line), rest)
  {
    hide FeedAll, Dispatch, EndOfInput;
    FeedFullLine(r, line);
    FeedAllConcat(r, line + "\n", rest);
  }

  lemma FinishIgnoresPhase(r: Receiver, s: Receiver, dest: Path, mode: nat)
    requires s == r.(phase := s.phase)
    ensures FinishEntry(r, dest, mode) == FinishEntry(s, dest, mode)
  {
  }

  lemma TotalNoLine(r: Receiver, rest: string)
    requires r.phase == InLine("") && '\n' !in rest
    ensures Total(r, rest) ==
            if r.top.received then Total(Leave(r), "") else r.(phase := Halted(false))
  {
    hide FinishEntry;
    FeedLine(r, rest);
    var cut := r.(phase := InLine("" + rest));
    if r.top.received && r.stack != [] {
      var caller := r.stack[|r.stack| - 1];
      FinishIgnoresPhase(r.(stack := r.stack[..|r.stack| - 1], top := caller.frame),
                         cut.(stack := r.stack[..|r.stack| - 1], top := caller.frame), caller.dest, caller.mode);
    }
  }

  /** The file body: io.CopyN, then the terminator byte. */
  lemma TotalBody(r: Receiver, dest: Path, mode: nat, size: nat, chunk: string, rest: string)
    requires dest in r.fs && r.fs[dest].File? && r.fs[dest].content == "" && r.fs[dest].times == None
    requires r.phase == if size == 0 then AtTerminator(dest, mode) else InData(dest, mode, size)
    requires |chunk| <= size && (|chunk| < size ==> rest == "")
    ensures var copied := r.(fs := Append(r.fs, dest, chunk));
            Total(r, chunk + rest) ==
            if |chunk| < size || rest == "" || rest[0] != '\0' then copied.(phase := Halted(false))
            else Total(FinishEntry(Acknowledge(copied), dest, mode), rest[1..])
  {
    hide Dispatch, FinishEntry, Leave;
    FeedAllConcat(r, chunk, rest);
    if chunk == "" {
      assert r.fs[dest].content + chunk == r.fs[dest].content;
      assert Append(r.fs, dest, chunk) == r.fs;
    } else {
      FeedData(r, chunk);
    }
    if |chunk| == size && rest != "" {
      var full := r.(fs := Append(r.fs, dest, chunk), phase := AtTerminator(dest, mode));
      assert FeedAll(full, rest) == FeedAll(Feed(full, rest[0]), rest[1..]);
      if rest[0] == '\0' {
        FinishIgnoresPhase(Acknowledge(full), Acknowledge(r.(fs := Append(r.fs, dest, chunk))), dest, mode);
      } else {
        FeedHalted(Feed(full, rest[0]), rest[1..]);
      }
    }
  }

  lemma TotalHalted(r: Receiver, input: string)
    requires r.phase.Halted?
    ensures Total(r, input) == r
  {
    FeedHalted(r, input);
  }

  class ReceiverProcess {
    var fs: Store
    var out: string
    const recursive: bool

    constructor (fs: Store, recursive: bool)
      ensures this.fs == fs && this.recursive == recursive && out == ""
    {
      this.fs := fs;
      this.recursive := recursive;
      out := "";
    }

    ghost function State(stack: seq<Caller>, frame: Frame, phase: Phase): Receiver
      reads this
    {
      Receiver(fs, stack, frame, phase, out, recursive)
    }

    method Fail(e: Error)
      modifies this`out
      ensures out == old(out) + ErrorReply(e)
    {
      out := out + ErrorReply(e);
    }

    method Ack()
      modifies this`out
      ensures out == old(out) + ACK
    {
      out := out + ACK;
    }

    /** The body of a "C" line whose file is open: data, terminator, attributes, acknowledgement. */
    method ReceiveFile(reader: ByteReader, dest: Path, mode: nat, size: nat, pending: Option<Times>,
                       ghost stack: seq<Caller>, ghost frame: Frame) returns (ok: bool, ghost last: Receiver)
      requires reader.Valid() && frame.pending == pending
      requires dest in fs && fs[dest].File? && fs[dest].content == "" && fs[dest].times == None
      modifies this`fs, this`out, reader
      ensures reader.Valid() && reader.pos >= old(reader.pos)
      ensures var start := old(State(stack, frame, if size == 0 then AtTerminator(dest, mode) else InData(dest, mode, size)));
              var after := State(stack, frame.(pending := None, received := true), InLine(""));
              Total(start, old(reader.Rest())) ==
              if ok then Total(if frame.isDir then after else Leave(after), reader.Rest()) else last
      ensures !ok ==> last.phase == Halted(false) && last.fs == fs && last.out == out
    {
      hide FeedAll, EndOfInput, Dispatch, Leave, Total;
      last := State(stack, frame, if size == 0 then AtTerminator(dest, mode) else InData(dest, mode, size));
      var chunk := reader.ReadUpTo(size);
      TotalBody(last, dest, mode, size, chunk, reader.Rest());
      fs := Append(fs, dest, chunk);
      last := State(stack, frame, Halted(false));
      if |chunk| < size {
        return false, last;
      }
      var terminator := reader.ReadByte();
      if terminator != Some('\0') {
        return false, last;
      }
      fs := SetAttributes(fs, dest, mode, pending);
      Ack();
      return true, last;
    }

    /** One "C" or "D" entry after its header line, up to the end of the loop body. */
    method ReceiveEntry(reader: ByteReader, h: Header, target: Path, targetIsDir: bool, pending: Option<Times>,
                        received: bool, ghost stack: seq<Caller>) returns (ok: bool, ghost last: Receiver)
      requires reader.Valid()
      modifies this`fs, this`out, reader
      ensures reader.Valid() && reader.pos >= old(reader.pos)
      ensures var start := old(State(stack, Frame(target, targetIsDir, pending, received), InLine("")));
              var after := State(stack, Frame(target, targetIsDir, None, true), InLine(""));
              Total(StartEntry(start, h), old(reader.Rest())) ==
              if ok then Total(if targetIsDir then after else Leave(after), reader.Rest()) else last
      ensures !ok ==> last.phase == Halted(false) && last.fs == fs && last.out == out
      decreases |reader.data| - reader.pos, 1
    {
      hide FeedAll, EndOfInput, Dispatch, Leave, Total, FinishEntry;
      last := State(stack, Frame(target, targetIsDir, pending, received), InLine(""));
      var dest := if targetIsDir || received then target + [h.name] else target;
      if h.isDir {
        if !recursive {
          Fail(NeedsRecursive);
          last := Refuse(last, NeedsRecursive);
          TotalHalted(last, reader.Rest());
          return false, last;
        }
        var made := MkdirAll(fs, dest, h.mode);
        if made.None? {
          Fail(StoreRefused);
          last := Refuse(last, StoreRefused);
          TotalHalted(last, reader.Rest());
          return false, last;
        }
        fs := made.value;
        Ack();
        ghost var caller := Caller(Frame(target, targetIsDir, pending, received), dest, h.mode);
        ghost var below;
        var innerEnded, innerOk;
        innerEnded, innerOk, below := ReceiveEntries(reader, dest, true, stack + [caller]);
        if !innerOk {
          return false, below;
        }
        LeaveFinishes(below, stack, caller);
        fs := SetAttributes(fs, dest, h.mode, pending);
        return true, below;
      }
      var file := OpenTruncated(fs, dest, h.mode);
      if file.None? {
        Fail(StoreRefused);
        last := Refuse(last, StoreRefused);
        TotalHalted(last, reader.Rest());
        return false, last;
      }
      fs := file.value;
      Ack();
      ok, last := ReceiveFile(reader, dest, h.mode, h.size, pending, stack,
                              Frame(target, targetIsDir, pending, received));
    }

    /** receiveSCPEntries, for any chain of callers `stack` above it. */
    method ReceiveEntries(reader: ByteReader, target: Path, targetIsDir: bool, ghost stack: seq<Caller>)
      returns (ended: bool, ok: bool, ghost last: Receiver)
      requires reader.Valid()
      modifies this`fs, this`out, reader
      ensures reader.Valid() && reader.pos >= old(reader.pos)
      ensures last.fs == fs && last.out == out
      ensures Total(old(State(stack, Frame(target, targetIsDir, None, false), InLine(""))), old(reader.Rest())) ==
              if ok then Total(Leave(last), reader.Rest()) else last
      ensures ok ==> last == State(stack, last.top, last.phase)
      ensures !ok ==> last.phase == Halted(false)
      decreases |reader.data| - reader.pos, 0
    {
      hide FeedAll, EndOfInput, Dispatch, Leave, Total, FinishEntry, ParseHeader, ParseTimes, StartEntry;
      ghost var start := State(stack, Frame(target, targetIsDir, None, false), InLine(""));
      ghost var input := reader.Rest();
      var pending: Option<Times> := None;
      var received := false;
      last := start;
      while true
        invariant reader.Valid() && reader.pos >= old(reader.pos)
        invariant last == State(stack, Frame(target, targetIsDir, pending, received), InLine(""))
        invariant Total(start, input) == Total(last, reader.Rest())
        decreases |reader.data| - reader.pos
      {
        ghost var before := reader.Rest();
        var read := reader.ReadLine();
        if read.None? {
          TotalNoLine(last, before);
          if received {
            return false, true, last;
          }
          last := last.(phase := Halted(false));
          return false, false, last;
        }
        var line := read.value;
        TotalLine(last, line, reader.Rest());
        if line == "E" {
          DispatchEnd(last);
          Ack();
          last := Acknowledge(last);
          return true, true, last;
        }
        if line == "" {
          DispatchNothing(last);
          continue;
        }
        if line[0] == '\U{0001}' || line[0] == '\U{0002}' {
          DispatchError(last, line);
          last := last.(phase := Halted(false));
          TotalHalted(last, reader.Rest());
          return false, false, last;
        }
        if line[0] == 'T' {
          DispatchTimesLine(last, line);
          var times := ParseTimes(line);
          if times.None? {
            Fail(BadTimes);
            last := Refuse(last, BadTimes);
            TotalHalted(last, reader.Rest());
            return false, false, last;
          }
          pending := times;
          Ack();
          last := Acknowledge(last.(top := last.top.(pending := times)));
          continue;
        }
        if line[0] != 'C' && line[0] != 'D' {
          DispatchUnknown(last, line);
          Fail(BadCommand);
          last := Refuse(last, BadCommand);
          TotalHalted(last, reader.Rest());
          return false, false, last;
        }
        DispatchEntryLine(last, line);
        var parsed := ParseHeader(line);
        if parsed.Bad? {
          Fail(parsed.error);
          last := Refuse(last, parsed.error);
          TotalHalted(last, reader.Rest());
          return false, false, last;
        }
        var entryOk;
        ghost var stopped;
        entryOk, stopped := ReceiveEntry(reader, parsed.header, target, targetIsDir, pending, received, stack);
        if !entryOk {
          last := stopped;
          return false, false, last;
        }
        pending := None;
        received := true;
        last := State(stack, Frame(target, targetIsDir, pending, received), InLine(""));
        if !targetIsDir {
          return false, true, last;
        }
      }
    }

    /** receiveSCP: the target check, the first acknowledgement, the entries. */
    method Receive(reader: ByteReader, target: Path, wantDir: bool) returns (ok: bool)
      requires reader.Valid() && out == ""
      modifies this`fs, this`out, reader
      ensures var r0 := Fresh(old(fs), target, wantDir || IsDir(old(fs), target), recursive);
              if wantDir && !IsDir(old(fs), target)
              then !ok && fs == old(fs) && out == ErrorReply(StoreRefused)
              else var done := Total(r0, old(reader.Rest()));
                   done.phase == Halted(ok) && fs == done.fs && out == done.out
      // Whatever the client sends, nothing changes but at, below and on the way to the target.
      ensures Confined(old(fs), fs, target)
    {
      hide FeedAll, EndOfInput, Dispatch, FinishEntry, Total, Below;
      ReceiverConfined(fs, target, wantDir || IsDir(fs, target), recursive, reader.Rest());
      var isDir := wantDir || IsDir(fs, target);
      if wantDir && !IsDir(fs, target) {
        Fail(StoreRefused);
        assert "" + ErrorReply(StoreRefused) == ErrorReply(StoreRefused);
        return false;
      }
      Ack();
      assert "" + ACK == ACK;
      var ended;
      ghost var last;
      ended, ok, last := ReceiveEntries(reader, target, isDir, []);
      if ok {
        TotalHalted(Leave(last), reader.Rest());
      }
    }
  }

  lemma LeaveFinishes(below: Receiver, stack: seq<Caller>, caller: Caller)
    requires below.stack == stack + [caller]
    ensures var done := below.(stack := stack,
                               fs := SetAttributes(below.fs, caller.dest, caller.mode, caller.frame.pending),
                               top := caller.frame.(pending := None, received := true),
                               phase := InLine(""));
            Leave(below) == if caller.frame.isDir then done else Leave(done)
  {
    assert below.stack[..|below.stack| - 1] == stack;
    assert below.stack[|below.stack| - 1] == caller;
  }

  lemma DispatchNothing(r: Receiver)
    requires r.phase == InLine("")
    ensures Dispatch(r, "") == r
  {
    hide Leave;
    assert r.(phase := InLine("")) == r;
  }

  lemma DispatchError(r: Receiver, line: string)
    requires r.phase == InLine("") && line != "" && (line[0] == '\U{0001}' || line[0] == '\U{0002}')
    ensures Dispatch(r, line) == r.(phase := Halted(false))
  {
    hide Leave;
    assert line[0] != 'E';
  }

  lemma DispatchTimesLine(r: Receiver, line: string)
    requires r.phase == InLine("") && line != "" && line[0] == 'T'
    ensures Dispatch(r, line) ==
            var times := ParseTimes(line);
            if times.None? then Refuse(r, BadTimes) else Acknowledge(r.(top := r.top.(pending := times)))
  {
    hide Leave, ParseTimes;
    assert r.(phase := InLine("")) == r;
    assert line[0] != 'E';
  }

  lemma DispatchUnknown(r: Receiver, line: string)
    requires r.phase == InLine("") && line != "" && line != "E"
    requires line[0] !in "\U{0001}\U{0002}TCD"
    ensures Dispatch(r, line) == Refuse(r, BadCommand)
  {
    hide Leave;
    assert r.(phase := InLine("")) == r;
    assert '\U{0001}' in "\U{0001}\U{0002}TCD" && '\U{0002}' in "\U{0001}\U{0002}TCD";
    assert 'T' in "\U{0001}\U{0002}TCD" && 'C' in "\U{0001}\U{0002}TCD" && 'D' in "\U{0001}\U{0002}TCD";
  }

  lemma DispatchEntryLine(r: Receiver, line: string)
    requires r.phase == InLine("") && line != "" && (line[0] == 'C' || line[0] == 'D')
    ensures Dispatch(r, line) ==
            var parsed := ParseHeader(line);
            if parsed.Bad? then Refuse(r, parsed.error) else StartEntry(r, parsed.header)
  {
    hide Leave, ParseHeader, StartEntry;
    assert r.(phase := InLine("")) == r;
    assert line[0] != 'E';
  }
}
