/** The receiver's verdict on every line of a client, and the fields it reads from the lines it takes. */
module ScpHeaders {
  import opened Prelude
  import opened Numbers
  import opened ScpStore
  import opened ScpReceiver
  import opened ScpSender
  import opened ScpRoundTrip
  import opened ScpConfinement
  import opened ScpProcess

  /** One error reply and the end, with the store as it is. */
  predicate RefusedWith(r: Receiver, done: Receiver, text: string) {
    done.fs == r.fs && done.phase == Halted(false) && done.out == r.out + "\U{0001}" + text + "\n"
  }

  lemma RefuseReplies(r: Receiver, e: Error)
    ensures RefusedWith(r, Refuse(r, e), ErrorText(e))
  {
    hide ErrorText;
    assert [FAILURE] == "\U{0001}";
    assert r.out + ErrorReply(e) == r.out + "\U{0001}" + ErrorText(e) + "\n";
  }

  // ---- Headers ----

  predicate OctalMode(mode: string) {
    |mode| > 0 && (forall c | c in mode :: '0' <= c <= '7') && AllDigits(mode, 8) && Value(mode, 8) < 4294967296
  }

  /** A decimal number that fits 64 bits, with an optional sign. */
  predicate WholeNumber(size: string) {
    var digits := if |size| > 0 && (size[0] == '-' || size[0] == '+') then size[1..] else size;
    && |digits| > 0 && (forall c | c in digits :: '0' <= c <= '9') && AllDigits(digits, 10)
    && Value(digits, 10) <= if size[0] == '-' then 9223372036854775808 else 9223372036854775807
  }

  function Magnitude(size: string): nat
    requires WholeNumber(size)
  {
    Value(if size[0] == '-' || size[0] == '+' then size[1..] else size, 10)
  }

  lemma DigitsIff(s: string)
    ensures AllDigits(s, 8) <==> forall c | c in s :: '0' <= c <= '7'
    ensures AllDigits(s, 10) <==> forall c | c in s :: '0' <= c <= '9'
  {
    assert forall i | 0 <= i < |s| :: s[i] in s;
  }

  lemma OctalModeIff(mode: string)
    ensures OctalMode(mode) <==> ParseUint(mode, 8, 0x1_0000_0000).Some?
    ensures OctalMode(mode) ==> ParseUint(mode, 8, 0x1_0000_0000) == Some(Value(mode, 8))
  {
    hide Value;
    DigitsIff(mode);
  }

  lemma WholeNumberIff(size: string)
    ensures WholeNumber(size) <==> ParseInt64(size).Some?
    ensures WholeNumber(size) ==> ParseInt64(size).value == Magnitude(size) * if size[0] == '-' then -1 else 1
  {
    hide Value, AllDigits;
    if size != "" {
      DigitsIff(size[1..]);
      DigitsIff(size);
      SignIsNoDigit(size);
    }
  }

  lemma SignIsNoDigit(size: string)
    requires size != ""
    ensures AllDigits(size, 10) ==> size[0] != '-' && size[0] != '+'
  {
    assert AllDigits(size, 10) ==> IsDigit(size[0], 10);
  }

  /** The verdict on a header line with three fields, field by field in this order; a line that passes starts the entry
      with the lower nine bits of its mode, its size and its name. */
  lemma HeaderVerdict(r: Receiver, kind: char, mode: string, size: string, name: string)
    requires r.phase == InLine("") && (kind == 'C' || kind == 'D') && ' ' !in mode && ' ' !in size
    ensures var done := Dispatch(r, [kind] + mode + " " + size + " " + name);
            if !OctalMode(mode) || !WholeNumber(size) then RefusedWith(r, done, "invalid syntax")
            else if size[0] == '-' && Magnitude(size) > 0 then RefusedWith(r, done, "invalid SCP file size")
            else if !PlainName(name) then RefusedWith(r, done, "invalid SCP filename")
            else if kind == 'D' && !r.recursive then RefusedWith(r, done, "SCP directory transfer requires -r")
            else done == StartEntry(r, Header(kind == 'D', Value(mode, 8) % 512, Magnitude(size), name))
  {
    hide SplitThree, OctalMode, WholeNumber, Magnitude, PlainName, LegalName, ParseUint, ParseInt64, Value, RefusedWith, StartEntry, Leave;
    var line := [kind] + mode + " " + size + " " + name;
    assert line[1..] == mode + " " + size + " " + name;
    SplitJoined(mode, size, name);
    DispatchEntryLine(r, line);
    OctalModeIff(mode);
    WholeNumberIff(size);
    NameIsPlain(name);
    RefuseReplies(r, BadNumber);
    RefuseReplies(r, BadSize);
    RefuseReplies(r, BadName);
    RefuseReplies(r, NeedsRecursive);
    DirectoryNeedsRecursive(r);
  }

  lemma DirectoryNeedsRecursive(r: Receiver)
    ensures forall h: Header | h.isDir && !r.recursive :: StartEntry(r, h) == Refuse(r, NeedsRecursive)
  {
  }

  /** A header with fewer than three fields, and a line that begins with no known letter. */
  lemma LineRefused(r: Receiver, line: string)
    requires r.phase == InLine("") && line != "" && line != "E" && '\n' !in line
    ensures (line[0] == 'C' || line[0] == 'D') && (forall a, b, c | line[1..] == a + " " + b + " " + c :: ' ' in a || ' ' in b) ==>
              RefusedWith(r, Dispatch(r, line), "invalid SCP file command")
    ensures line[0] !in ['C', 'D', 'T', '\U{0001}', '\U{0002}'] ==>
              RefusedWith(r, Dispatch(r, line), "invalid SCP protocol command")
    ensures line[0] in ['\U{0001}', '\U{0002}'] ==> Dispatch(r, line) == r.(phase := Halted(false))
  {
    hide ParseTimes, StartEntry, Leave, RefusedWith, CheckHeader;
    RefuseReplies(r, BadHeader);
    RefuseReplies(r, BadCommand);
    assert ['C', 'D', 'T', '\U{0001}', '\U{0002}'] == "CDT\U{0001}\U{0002}";
    if line[0] == 'C' || line[0] == 'D' {
      DispatchEntryLine(r, line);
      if SplitThree(line[1..]).Some? {
        SplitThreeJoins(line[1..]);
      }
    } else if line[0] == '\U{0001}' || line[0] == '\U{0002}' {
      DispatchError(r, line);
    } else if line[0] != 'T' {
      DispatchOther(r, line);
    }
  }

  lemma DispatchOther(r: Receiver, line: string)
    requires r.phase == InLine("") && line != "" && line != "E"
    requires line[0] != 'C' && line[0] != 'D' && line[0] != 'T' && line[0] != '\U{0001}' && line[0] != '\U{0002}'
    ensures Dispatch(r, line) == Refuse(r, BadCommand)
  {
    hide ParseTimes, StartEntry, Leave;
    assert r.(phase := InLine("")) == r;
  }

  lemma CutAt(s: string, i: nat)
    requires i < |s| && s[i] == ' ' && forall j | 0 <= j < i :: s[j] != ' '
    ensures s == s[..i] + " " + s[i + 1..] && ' ' !in s[..i]
  {
    assert s[..i + 1] == s[..i] + " ";
    assert s == s[..i + 1] + s[i + 1..];
  }

  lemma SplitThreeJoins(s: string)
    requires SplitThree(s).Some?
    ensures var (a, b, c) := SplitThree(s).value; s == a + " " + b + " " + c && ' ' !in a && ' ' !in b
  {
    var i := IndexOf(s, ' ');
    var rest := s[i + 1..];
    var j := IndexOf(rest, ' ');
    CutAt(s, i);
    CutAt(rest, j);
    hide IndexOf;
    var a, b, c := s[..i], rest[..j], rest[j + 1..];
    assert SplitThree(s) == Some((a, b, c));
    assert a + " " + (b + " " + c) == a + " " + b + " " + c;
  }

  /** A client that names an entry badly, whatever it sends after that, gets the first acknowledgement and one error. */
  lemma BadNameChangesNothing(fs: Store, target: Path, isDir: bool, recursive: bool,
                              kind: char, mode: string, size: string, name: string, rest: string)
    requires kind == 'C' || kind == 'D'
    requires ' ' !in mode && ' ' !in size && '\n' !in mode + size + name
    requires OctalMode(mode) && WholeNumber(size) && size[0] != '-' && !PlainName(name)
    ensures var line := [kind] + mode + " " + size + " " + name;
            var done := Total(Fresh(fs, target, isDir, recursive), line + "\n" + rest);
            && done.fs == fs && done.phase == Halted(false)
            && done.out == "\0" + "\U{0001}invalid SCP filename\n"
  {
    hide OctalMode, WholeNumber, PlainName, Dispatch, Total;
    var line := [kind] + mode + " " + size + " " + name;
    var r := Fresh(fs, target, isDir, recursive);
    HeaderVerdict(r, kind, mode, size, name);
    NoNewline(kind, mode, size, name);
    TotalLine(r, line, rest);
    TotalHalted(Dispatch(r, line), rest);
    assert "\U{0001}" + "invalid SCP filename" + "\n" == "\U{0001}invalid SCP filename\n";
    assert "\0" + "\U{0001}" + "invalid SCP filename" + "\n" == "\0" + "\U{0001}invalid SCP filename\n";
  }

  lemma NoNewline(kind: char, mode: string, size: string, name: string)
    requires '\n' !in mode + size + name && kind != '\n'
    ensures '\n' !in [kind] + mode + " " + size + " " + name
  {
    assert forall c | c in mode || c in size || c in name :: c in mode + size + name;
  }

  // ---- Times ----

  predicate FitsInt64(n: int) {
    -INT64_LIMIT <= n < INT64_LIMIT
  }

  /** The four numbers of a "T" line are the modification time and the access time, each with its microseconds. */
  lemma TimesInOrder(r: Receiver, mtime: int, mtimeMicros: int, atime: int, atimeMicros: int)
    requires r.phase == InLine("")
    requires FitsInt64(mtime) && FitsInt64(mtimeMicros) && FitsInt64(atime) && FitsInt64(atimeMicros)
    ensures var line := "T" + Decimal(mtime) + " " + Decimal(mtimeMicros) + " " + Decimal(atime) + " " + Decimal(atimeMicros);
            Dispatch(r, line) == r.(top := r.top.(pending := Some(Times(mtime, mtimeMicros, atime, atimeMicros))), out := r.out + "\0")
  {
    hide ScanInt, ScanField, Decimal, Leave, StartEntry, ParseHeader;
    var line := "T" + Decimal(mtime) + " " + Decimal(mtimeMicros) + " " + Decimal(atime) + " " + Decimal(atimeMicros);
    var rest3 := " " + Decimal(atimeMicros) + "";
    var rest2 := " " + Decimal(atime) + rest3;
    var rest1 := " " + Decimal(mtimeMicros) + rest2;
    assert line[1..] == Decimal(mtime) + rest1;
    ScanDecimal(mtime, rest1);
    ScanSentField(mtimeMicros, rest2);
    ScanSentField(atime, rest3);
    ScanSentField(atimeMicros, "");
    DispatchTimesLine(r, line);
  }

  // ---- A whole file ----

  /** One file with times, from the bytes of the client to the node in the store: the content, the mode and the four
      times of the lines, and four acknowledgements. */
  lemma FileArrives(fs: Store, target: Path, name: string, mode: nat, content: string, times: Times, recursive: bool)
    requires IsDir(fs, target) && PlainName(name) && (target + [name] in fs ==> fs[target + [name]].File?)
    requires mode < 512 && |content| < INT64_LIMIT
    requires FitsInt64(times.mtime) && FitsInt64(times.mtimeMicros) && FitsInt64(times.atime) && FitsInt64(times.atimeMicros)
    ensures var announced := "T" + Decimal(times.mtime) + " " + Decimal(times.mtimeMicros) + " " + Decimal(times.atime)
                             + " " + Decimal(times.atimeMicros);
            var header := "C" + Octal4(mode) + " " + Decimal(|content|) + " " + name;
            var done := FeedAll(Fresh(fs, target, true, recursive), announced + "\n" + (header + "\n" + (content + "\0")));
            && done.phase == InLine("") && done.out == "\0\0\0\0"
            && target + [name] in done.fs && done.fs[target + [name]] == File(content, mode, Some(times))
            && forall p | p in done.fs && p != target + [name] && p != target :: p in fs && done.fs[p] == fs[p]
  {
    hide *;
    var r := Fresh(fs, target, true, recursive);
    var announced := "T" + Decimal(times.mtime) + " " + Decimal(times.mtimeMicros) + " " + Decimal(times.atime)
                     + " " + Decimal(times.atimeMicros);
    AnnouncedTimes(fs, target, recursive, times);
    FeedAllConcat(r, announced + "\n", HeaderText(Leaf(name, mode, 0, content)) + "\n" + (content + "\0"));
    HeaderOfFile(name, mode, content);
    FileAfterTimes(fs, target, name, mode, content, times, recursive);
  }

  function Told(fs: Store, target: Path, recursive: bool, times: Times): Receiver {
    Receiver(fs, [], Frame(target, true, Some(times), false), InLine(""), "\0\0", recursive)
  }

  lemma AnnouncedTimes(fs: Store, target: Path, recursive: bool, times: Times)
    requires FitsInt64(times.mtime) && FitsInt64(times.mtimeMicros) && FitsInt64(times.atime) && FitsInt64(times.atimeMicros)
    ensures var announced := "T" + Decimal(times.mtime) + " " + Decimal(times.mtimeMicros) + " " + Decimal(times.atime)
                             + " " + Decimal(times.atimeMicros);
            FeedAll(Fresh(fs, target, true, recursive), announced + "\n") == Told(fs, target, recursive, times)
  {
    hide FeedAll, Dispatch, Decimal, Feed;
    var r := Fresh(fs, target, true, recursive);
    var announced := "T" + Decimal(times.mtime) + " " + Decimal(times.mtimeMicros) + " " + Decimal(times.atime)
                     + " " + Decimal(times.atimeMicros);
    TimesInOrder(r, times.mtime, times.mtimeMicros, times.atime, times.atimeMicros);
    assert '\n' !in announced;
    FeedFullLine(r, announced);
    assert "\0" + "\0" == "\0\0";
  }

  lemma HeaderOfFile(name: string, mode: nat, content: string)
    ensures HeaderText(Leaf(name, mode, 0, content)) == "C" + Octal4(mode) + " " + Decimal(|content|) + " " + name
  {
  }

  lemma FileAfterTimes(fs: Store, target: Path, name: string, mode: nat, content: string, times: Times, recursive: bool)
    requires IsDir(fs, target) && PlainName(name) && (target + [name] in fs ==> fs[target + [name]].File?)
    requires mode < 512 && |content| < INT64_LIMIT
    ensures var t := Leaf(name, mode, 0, content);
            var done := FeedAll(Told(fs, target, recursive, times), HeaderText(t) + "\n" + (content + "\0"));
            && done.phase == InLine("") && done.out == "\0\0\0\0"
            && target + [name] in done.fs && done.fs[target + [name]] == File(content, mode, Some(times))
            && forall p | p in done.fs && p != target + [name] && p != target :: p in fs && done.fs[p] == fs[p]
  {
    hide FeedAll, HeaderText, OpenTruncated, Append, SetAttributes, PlainName;
    var t := Leaf(name, mode, 0, content);
    NameIsPlain(name);
    FileStored(fs, target, name, mode, content, times);
    FeedFile(Told(fs, target, recursive, times), t);
    assert "\0\0" + ACK + ACK == "\0\0\0\0";
  }

  lemma FileStored(fs: Store, target: Path, name: string, mode: nat, content: string, times: Times)
    requires IsDir(fs, target) && (target + [name] in fs ==> fs[target + [name]].File?)
    ensures var at := target + [name];
            var file := OpenTruncated(fs, at, mode);
            file.Some? &&
            var fs' := SetAttributes(Append(file.value, at, content), at, mode, Some(times));
            && at in fs' && fs'[at] == File(content, mode, Some(times))
            && forall p | p in fs' && p != at && p != target :: p in fs && fs'[p] == fs[p]
  {
    assert Parent(target + [name]) == target;
    assert "" + content == content;
  }

  // ---- Streams that end too early, or go on wrongly ----

  /** A stream without a whole line leaves the store as it was and is no success. */
  lemma NothingArrives(fs: Store, target: Path, isDir: bool, recursive: bool, input: string)
    requires '\n' !in input
    ensures var done := Total(Fresh(fs, target, isDir, recursive), input);
            done.fs == fs && done.phase == Halted(false) && done.out == "\0"
  {
    hide Total, Leave;
    TotalNoLine(Fresh(fs, target, isDir, recursive), input);
  }

  /** A file whose content is cut short, or not followed by a zero byte, is an error without a second acknowledgement,
      and has neither its times nor its mode set. */
  lemma FileCutShort(r: Receiver, t: Tree, chunk: string, rest: string)
    requires t.Leaf? && Legal(t) && r.phase == InLine("") && OpenTruncated(r.fs, Destination(r.top, t.name), t.mode).Some?
    requires if |chunk| < |t.content| then rest == "" else |chunk| == |t.content| && (rest == "" || rest[0] != '\0')
    ensures var dest := Destination(r.top, t.name);
            var done := Total(r, HeaderText(t) + "\n" + (chunk + rest));
            && done.phase == Halted(false) && done.out == r.out + "\0"
            && done.fs == Append(OpenTruncated(r.fs, dest, t.mode).value, dest, chunk)
  {
    hide FeedAll, EndOfInput, HeaderText, Append, FinishEntry, Legal;
    var dest := Destination(r.top, t.name);
    FeedAllConcat(r, HeaderText(t) + "\n", chunk + rest);
    FeedHeader(r, t);
    FreshFile(r.fs, dest, t.mode);
    TotalBody(StartEntry(r, SentHeader(t)), dest, t.mode, |t.content|, chunk, rest);
  }

  lemma FreshFile(fs: Store, dest: Path, mode: nat)
    requires OpenTruncated(fs, dest, mode).Some?
    ensures var opening := OpenTruncated(fs, dest, mode).value;
            dest in opening && opening[dest].File? && opening[dest].content == "" && opening[dest].times == None
  {
  }
}
