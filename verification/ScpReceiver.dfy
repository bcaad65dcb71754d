/** The receiving half of the legacy SCP protocol as a machine fed one byte at a time,
    with the recursion of the source kept as an explicit stack. */
module ScpReceiver {
  import opened Prelude
  import opened Numbers
  import opened ScpStore

  const ACK: string := "\0"
  const FAILURE: char := '\U{0001}'

  datatype Error =
    | BadTimes | BadCommand | BadHeader | BadNumber | BadSize | BadName | NeedsRecursive | StoreRefused

  /** The reply's text. Where the source passes on an error of Go's library, the text here is a stand-in. */
  function ErrorText(e: Error): (s: string)
    ensures '\n' !in s
  {
    match e
    case BadTimes => "input does not match format"
    case BadCommand => "invalid SCP protocol command"
    case BadHeader => "invalid SCP file command"
    case BadNumber => "invalid syntax"
    case BadSize => "invalid SCP file size"
    case BadName => "invalid SCP filename"
    case NeedsRecursive => "SCP directory transfer requires -r"
    case StoreRefused => "file system error"
  }

  function ErrorReply(e: Error): string {
    [FAILURE] + ErrorText(e) + "\n"
  }

  /** One activation of the receive loop: its arguments and its two local variables. */
  datatype Frame = Frame(target: Path, isDir: bool, pending: Option<Times>, received: bool)

  /** A loop waiting for the recursive call that fills `dest`. */
  datatype Caller = Caller(frame: Frame, dest: Path, mode: nat)

  datatype Phase =
    | InLine(line: string)
    | InData(dest: Path, mode: nat, left: nat)
    | AtTerminator(dest: Path, mode: nat)
    | Halted(ok: bool)

  datatype Receiver = Receiver(
    fs: Store, stack: seq<Caller>, top: Frame, phase: Phase, out: string, recursive: bool)

  datatype Header = Header(isDir: bool, mode: nat, size: nat, name: string)
  datatype Parsed = Good(header: Header) | Bad(error: Error)

  predicate LegalName(name: string) {
    name != "" && name != "." && name != ".." && '/' !in name && '\\' !in name && '\r' !in name && '\n' !in name
  }

  /** strings.SplitN(s, " ", 3), when it yields three parts. */
  function SplitThree(s: string): Option<(string, string, string)> {
    var i := IndexOf(s, ' ');
    if i == |s| then None else
      var rest := s[i + 1..];
      var j := IndexOf(rest, ' ');
      if j == |rest| then None else Some((s[..i], rest[..j], rest[j + 1..]))
  }

  function CheckHeader(isDir: bool, mode: string, size: string, name: string): Parsed {
    var m := ParseUint(mode, 8, 0x1_0000_0000);
    var z := ParseInt64(size);
    if m.None? || z.None? then Bad(BadNumber)
    else if z.value < 0 then Bad(BadSize)
    else if !LegalName(name) then Bad(BadName)
    else Good(Header(isDir, Permissions(m.value), z.value, name))
  }

  /** The "C" and "D" lines: mode, size and name, the name being everything after the second space. */
  function ParseHeader(line: string): Parsed
    requires line != ""
  {
    var parts := SplitThree(line[1..]);
    if parts.None? then Bad(BadHeader)
    else CheckHeader(line[0] == 'D', parts.value.0, parts.value.1, parts.value.2)
  }

  function Permissions(mode: int): nat {
    if mode < 0 then 0 else mode % 0x200
  }

  function ParseTimes(line: string): Option<Times>
    requires line != ""
  {
    var a := ScanInt(line[1..]);
    if a.None? then None else
      var b := ScanField(a.value.1);
      if b.None? then None else
        var c := ScanField(b.value.1);
        if c.None? then None else
          var d := ScanField(c.value.1);
          if d.None? then None else Some(Times(a.value.0, b.value.0, c.value.0, d.value.0))
  }

  function ScanField(s: string): Option<(int, string)> {
    var gap := ScanGap(s);
    if gap.None? then None else ScanInt(gap.value)
  }

  function Destination(frame: Frame, name: string): Path {
    if frame.isDir || frame.received then frame.target + [name] else frame.target
  }

  function Refuse(r: Receiver, e: Error): Receiver {
    r.(out := r.out + ErrorReply(e), phase := Halted(false))
  }

  function Acknowledge(r: Receiver): Receiver {
    r.(out := r.out + ACK)
  }

  /** The tail of the loop body, reached when the entry at `dest` is complete. */
  function FinishEntry(r: Receiver, dest: Path, mode: nat): (done: Receiver)
    ensures |done.stack| <= |r.stack|
    decreases |r.stack|, 1
  {
    var done := r.(fs := SetAttributes(r.fs, dest, mode, r.top.pending),
                   top := r.top.(pending := None, received := true),
                   phase := InLine(""));
    if done.top.isDir then done else Leave(done)
  }

  /** Return from the receive loop without an error. */
  function Leave(r: Receiver): (done: Receiver)
    ensures |done.stack| <= |r.stack|
    decreases |r.stack|, 0
  {
    if r.stack == [] then r.(phase := Halted(true))
    else
      var caller := r.stack[|r.stack| - 1];
      FinishEntry(r.(stack := r.stack[..|r.stack| - 1], top := caller.frame), caller.dest, caller.mode)
  }

  function StartEntry(r: Receiver, h: Header): Receiver {
    var dest := Destination(r.top, h.name);
    if h.isDir then
      if !r.recursive then Refuse(r, NeedsRecursive) else
        var made := MkdirAll(r.fs, dest, h.mode);
        if made.None? then Refuse(r, StoreRefused)
        else Acknowledge(r.(fs := made.value,
                            stack := r.stack + [Caller(r.top, dest, h.mode)],
                            top := Frame(dest, true, None, false),
                            phase := InLine("")))
    else
      var truncated := OpenTruncated(r.fs, dest, h.mode);
      if truncated.None? then Refuse(r, StoreRefused)
      else Acknowledge(r.(fs := truncated.value,
                          phase := if h.size == 0 then AtTerminator(dest, h.mode) else InData(dest, h.mode, h.size)))
  }

  function Dispatch(r: Receiver, line: string): Receiver {
    var r := r.(phase := InLine(""));
    if line == "E" then Leave(Acknowledge(r))
    else if line == "" then r
    else if line[0] == '\U{0001}' || line[0] == '\U{0002}' then r.(phase := Halted(false))
    else if line[0] == 'T' then
      var times := ParseTimes(line);
      if times.None? then Refuse(r, BadTimes) else Acknowledge(r.(top := r.top.(pending := times)))
    else if line[0] == 'C' || line[0] == 'D' then
      var parsed := ParseHeader(line);
      if parsed.Bad? then Refuse(r, parsed.error) else StartEntry(r, parsed.header)
    else Refuse(r, BadCommand)
  }

  /** What the receiver does with its next input byte. */
  function Feed(r: Receiver, b: char): Receiver {
    match r.phase
    case InLine(line) =>
      if b == '\n' then Dispatch(r, line) else r.(phase := InLine(line + [b]))
    case InData(dest, mode, left) =>
      r.(fs := Append(r.fs, dest, [b]),
         phase := if left <= 1 then AtTerminator(dest, mode) else InData(dest, mode, left - 1))
    case AtTerminator(dest, mode) =>
      if b == '\0' then FinishEntry(Acknowledge(r), dest, mode) else r.(phase := Halted(false))
    case Halted(_) => r
  }

  function FeedAll(r: Receiver, input: string): Receiver
    decreases input
  {
    if input == "" then r else FeedAll(Feed(r, input[0]), input[1..])
  }

  /** What the receiver does when its input ends. */
  function EndOfInput(r: Receiver): Receiver
    decreases |r.stack|
  {
    match r.phase
    case InLine(_) =>
      if !r.top.received then r.(phase := Halted(false))
      else if r.stack == [] then r.(phase := Halted(true))
      else
        var caller := r.stack[|r.stack| - 1];
        EndOfInput(FinishEntry(r.(stack := r.stack[..|r.stack| - 1], top := caller.frame), caller.dest, caller.mode))
    case InData(_, _, _) => r.(phase := Halted(false))
    case AtTerminator(_, _) => r.(phase := Halted(false))
    case Halted(_) => r
  }

  /** The whole behaviour on a finite input. */
  function Total(r: Receiver, input: string): Receiver {
    EndOfInput(FeedAll(r, input))
  }

  function Fresh(fs: Store, target: Path, isDir: bool, recursive: bool): Receiver {
    Receiver(fs, [], Frame(target, isDir, None, false), InLine(""), ACK, recursive)
  }

  lemma FeedOne(r: Receiver, b: char)
    ensures FeedAll(r, [b]) == Feed(r, b)
  {
    assert FeedAll(r, [b]) == FeedAll(Feed(r, b), [b][1..]);
  }

  lemma {:induction false} FeedHalted(r: Receiver, input: string)
    requires r.phase.Halted?
    ensures FeedAll(r, input) == r
    decreases input
  {
    if input != "" { FeedHalted(r, input[1..]); }
  }

  lemma {:induction false} FeedAllConcat(r: Receiver, a: string, b: string)
    decreases a
    ensures FeedAll(r, a + b) == FeedAll(FeedAll(r, a), b)
  {
    if a == "" {
      assert a + b == b;
    } else {
      assert (a + b)[1..] == a[1..] + b;
      FeedAllConcat(Feed(r, a[0]), a[1..], b);
    }
  }

  lemma {:induction false} FeedLine(r: Receiver, line: string)
    requires r.phase.InLine? && '\n' !in line
    ensures FeedAll(r, line) == r.(phase := InLine(r.phase.line + line))
    decreases line
  {
    if line == "" {
      assert r.phase.line + line == r.phase.line;
    } else {
      assert '\n' !in line[1..];
      FeedLine(Feed(r, line[0]), line[1..]);
      assert r.phase.line + [line[0]] + line[1..] == r.phase.line + line;
    }
  }

  /** A whole line is dispatched at its newline, and not before. */
  lemma FeedFullLine(r: Receiver, line: string)
    requires r.phase == InLine("") && '\n' !in line
    ensures FeedAll(r, line + "\n") == Dispatch(r, line)
  {
    FeedAllConcat(r, line, "\n");
    FeedLine(r, line);
    var mid := r.(phase := InLine(line));
    assert "" + line == line;
    FeedOne(mid, '\n');
    DispatchIgnoresPhase(r, mid, line);
  }

  lemma DispatchEnd(r: Receiver)
    requires r.phase == InLine("")
    ensures Dispatch(r, "E") == Leave(Acknowledge(r))
  {
    hide Leave;
    assert r.(phase := InLine("")) == r;
  }

  lemma DispatchEntry(r: Receiver, line: string, h: Header)
    requires r.phase == InLine("")
    requires line != "" && (line[0] == 'C' || line[0] == 'D') && ParseHeader(line) == Good(h)
    ensures Dispatch(r, line) == StartEntry(r, h)
  {
    assert r.(phase := InLine("")) == r;
    assert line[0] != 'E';
  }

  lemma DispatchIgnoresPhase(r: Receiver, s: Receiver, line: string)
    requires s == r.(phase := s.phase)
    ensures Dispatch(r, line) == Dispatch(s, line)
  {
    assert r.(phase := InLine("")) == s.(phase := InLine(""));
  }

  lemma {:induction false} FeedData(r: Receiver, data: string)
    requires r.phase.InData? && r.phase.left >= |data|
    requires r.phase.dest in r.fs && r.fs[r.phase.dest].File?
    ensures FeedAll(r, data) ==
            if data == "" then r
            else r.(fs := Append(r.fs, r.phase.dest, data),
                    phase := if r.phase.left == |data| then AtTerminator(r.phase.dest, r.phase.mode)
                             else r.phase.(left := r.phase.left - |data|))
    decreases data
  {
    if |data| == 1 {
      FeedOne(r, data[0]);
      assert data == [data[0]];
    } else if |data| > 1 {
      FeedData(Feed(r, data[0]), data[1..]);
      AppendTwice(r.fs, r.phase.dest, data[0], data[1..]);
      assert data == [data[0]] + data[1..];
    }
  }

  lemma AppendTwice(fs: Store, p: Path, b: char, data: string)
    requires p in fs && fs[p].File?
    ensures Append(Append(fs, p, [b]), p, data) == Append(fs, p, [b] + data)
  {
    assert fs[p].content + [b] + data == fs[p].content + ([b] + data);
  }
}
