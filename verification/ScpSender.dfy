/** The sending half of the legacy SCP protocol. The sender waits for one reply after every
    message, so a transfer is a sequence of messages and a flag for how it ends. */
module ScpSender {
  import opened Prelude
  import opened Numbers
  import opened ScpStore
  import opened ScpReceiver

  /** A snapshot of what os.Stat and os.ReadDir report, children in directory order. */
  datatype Tree =
    | Leaf(name: string, mode: nat, mtime: int, content: string)
    | Folder(name: string, mode: nat, mtime: int, children: seq<Tree>)

  datatype Options = Options(preserve: bool, recursive: bool)

  datatype Script = Script(messages: seq<string>, ok: bool)

  function TimesText(t: Tree): string {
    "T" + Decimal(t.mtime) + " 0 " + Decimal(t.mtime) + " 0"
  }

  function HeaderText(t: Tree): string {
    match t
    case Leaf(name, mode, _, content) => "C" + Octal4(mode) + " " + Decimal(|content|) + " " + name
    case Folder(name, mode, _, _) => "D" + Octal4(mode) + " 0 " + name
  }

  function TimesMessages(t: Tree, opts: Options): seq<string> {
    if opts.preserve then [TimesText(t) + "\n"] else []
  }

  function TreeScript(t: Tree, opts: Options): Script
    decreases t, 1
  {
    var times := TimesMessages(t, opts);
    if '\r' in t.name || '\n' in t.name then Script([], false)
    else match t
      case Leaf(_, _, _, content) => Script(times + [HeaderText(t) + "\n", content + "\0"], true)
      case Folder(_, _, _, children) =>
        if !opts.recursive then Script(times, false) else
          var inner := ListScript(children, opts);
          Script(times + [HeaderText(t) + "\n"] + inner.messages + (if inner.ok then ["E\n"] else []), inner.ok)
  }

  function ListScript(ts: seq<Tree>, opts: Options): Script
    decreases ts, 0
  {
    if ts == [] then Script([], true) else
      var first := TreeScript(ts[0], opts);
      if !first.ok then first else
        var rest := ListScript(ts[1..], opts);
        Script(first.messages + rest.messages, rest.ok)
  }

  /** What can be sent and named: the domain of the round trip. */
  predicate Legal(t: Tree)
    decreases t
  {
    && LegalName(t.name)
    && t.mode < 0x200
    && -INT64_LIMIT <= t.mtime < INT64_LIMIT
    && (t.Leaf? ==> |t.content| < INT64_LIMIT)
    && (t.Folder? ==>
          && (forall i | 0 <= i < |t.children| :: Legal(t.children[i]))
          && DistinctNames(t.children))
  }

  predicate DistinctNames(ts: seq<Tree>) {
    forall i, j | 0 <= i < j < |ts| :: ts[i].name != ts[j].name
  }

  function SentTimes(t: Tree, preserve: bool): Option<Times> {
    if preserve then Some(Times(t.mtime, 0, t.mtime, 0)) else None
  }

  /** The store after `t` has been written at path `at`. */
  function Overlay(fs: Store, at: Path, t: Tree, preserve: bool): Store
    decreases t, 1
  {
    match t
    case Leaf(_, mode, _, content) =>
      var file := OpenTruncated(fs, at, mode);
      if file.None? then fs
      else SetAttributes(Append(file.value, at, content), at, mode, SentTimes(t, preserve))
    case Folder(_, mode, _, children) =>
      var made := MkdirAll(fs, at, mode);
      if made.None? then fs
      else SetAttributes(OverlayAll(made.value, at, children, preserve), at, mode, SentTimes(t, preserve))
  }

  function OverlayAll(fs: Store, at: Path, ts: seq<Tree>, preserve: bool): Store
    decreases ts, 0
  {
    if ts == [] then fs
    else OverlayAll(Overlay(fs, at + [ts[0].name], ts[0], preserve), at, ts[1..], preserve)
  }

  /** The file system refuses none of the operations that write `t` at `at`. */
  predicate Accepts(fs: Store, at: Path, t: Tree, preserve: bool)
    decreases t, 1
  {
    match t
    case Leaf(_, mode, _, _) => OpenTruncated(fs, at, mode).Some?
    case Folder(_, mode, _, children) =>
      var made := MkdirAll(fs, at, mode);
      made.Some? && AcceptsAll(made.value, at, children, preserve)
  }

  predicate AcceptsAll(fs: Store, at: Path, ts: seq<Tree>, preserve: bool)
    decreases ts, 0
  {
    ts != [] ==>
      && Accepts(fs, at + [ts[0].name], ts[0], preserve)
      && AcceptsAll(Overlay(fs, at + [ts[0].name], ts[0], preserve), at, ts[1..], preserve)
  }

  function Acks(n: nat): string {
    seq(n, _ => '\0')
  }

  // ---- What is sent at all ----

  /** Every name in the tree is on one line. */
  predicate OneLineNames(t: Tree)
    decreases t
  {
    && (forall i | 0 <= i < |t.name| :: t.name[i] != '\r' && t.name[i] != '\n')
    && (t.Folder? ==> forall i | 0 <= i < |t.children| :: OneLineNames(t.children[i]))
  }

  /** A tree is sent to its end exactly when its names are on one line each and it is a file or -r was given; a root
      that fails sends no header. */
  lemma {:induction false} SendsIff(t: Tree, opts: Options)
    ensures TreeScript(t, opts).ok <==> OneLineNames(t) && (t.Folder? ==> opts.recursive)
    ensures '\r' in t.name || '\n' in t.name ==> TreeScript(t, opts).messages == []
    ensures t.Folder? && !opts.recursive ==> |TreeScript(t, opts).messages| <= if opts.preserve then 1 else 0
    decreases t, 1
  {
    assert forall i | 0 <= i < |t.name| :: t.name[i] in t.name;
    if t.Folder? {
      ListSendsIff(t.children, opts);
    }
  }

  lemma {:induction false} ListSendsIff(ts: seq<Tree>, opts: Options)
    ensures ListScript(ts, opts).ok <==>
            forall i | 0 <= i < |ts| :: OneLineNames(ts[i]) && (ts[i].Folder? ==> opts.recursive)
    decreases ts, 0
  {
    if ts != [] {
      SendsIff(ts[0], opts);
      ListSendsIff(ts[1..], opts);
      assert forall i | 1 <= i < |ts| :: ts[i] == ts[1..][i - 1];
    }
  }

  // ---- Lines survive printing and parsing ----

  lemma ParseSentTimes(t: Tree)
    requires -INT64_LIMIT <= t.mtime < INT64_LIMIT
    ensures ParseTimes(TimesText(t)) == Some(Times(t.mtime, 0, t.mtime, 0))
    ensures '\n' !in TimesText(t)
  {
    hide ScanInt, ScanField, Decimal;
    var m := Decimal(t.mtime);
    var rest3 := " 0";
    var rest2 := " " + m + rest3;
    var rest1 := " 0" + rest2;
    assert TimesText(t)[1..] == m + rest1;
    DecimalZero();
    ScanDecimal(t.mtime, rest1);
    assert rest1 == " " + Decimal(0) + rest2;
    ScanSentField(0, rest2);
    ScanSentField(t.mtime, rest3);
    assert rest3 == " " + Decimal(0) + "";
    ScanSentField(0, "");
  }

  lemma DecimalZero()
    ensures Decimal(0) == "0"
  {
  }

  lemma ScanSentField(n: int, rest: string)
    requires -INT64_LIMIT <= n < INT64_LIMIT
    requires rest == "" || rest[0] == ' '
    ensures ScanField(" " + Decimal(n) + rest) == Some((n, rest))
  {
    var s := " " + Decimal(n) + rest;
    assert s[1..] == Decimal(n) + rest;
    assert Decimal(n)[0] in Decimal(n);
    assert SkipSpaces(s) == SkipSpaces(s[1..]) == s[1..];
    ScanDecimal(n, rest);
  }

  lemma SplitJoined(a: string, b: string, c: string)
    requires ' ' !in a && ' ' !in b
    ensures SplitThree(a + " " + b + " " + c) == Some((a, b, c))
  {
    var s := a + " " + b + " " + c;
    var rest := b + " " + c;
    assert s == a + " " + rest;
    IndexOfConcat(a, ' ', rest);
    assert s[..|a|] == a && s[|a| + 1..] == rest;
    IndexOfConcat(b, ' ', c);
    assert rest[..|b|] == b && rest[|b| + 1..] == c;
  }

  lemma CheckPrintedHeader(isDir: bool, mode: nat, size: nat, name: string)
    requires LegalName(name) && mode < 0x200 && size < INT64_LIMIT
    ensures CheckHeader(isDir, Octal4(mode), Decimal(size), name) == Good(Header(isDir, mode, size, name))
  {
    hide ParseUint, ParseInt64, Octal4, Decimal, LegalName;
    ParseOctal4(mode, 0x1_0000_0000);
    ParseDecimal(size);
  }

  function SentHeader(t: Tree): Header {
    Header(t.Folder?, t.mode, if t.Leaf? then |t.content| else 0, t.name)
  }

  function HeaderFields(t: Tree): string {
    Octal4(t.mode) + " " + Decimal(if t.Leaf? then |t.content| else 0) + " " + t.name
  }

  lemma HeaderTextFields(t: Tree)
    ensures HeaderText(t) == [if t.Leaf? then 'C' else 'D'] + HeaderFields(t)
  {
    assert Decimal(0) == "0";
  }

  /** The receiver takes a printed header apart into its three fields. */
  lemma HeaderIsChecked(t: Tree)
    ensures HeaderText(t) != ""
    ensures ParseHeader(HeaderText(t)) ==
            CheckHeader(t.Folder?, Octal4(t.mode), Decimal(SentHeader(t).size), t.name)
  {
    hide HeaderText, CheckHeader, Octal4, Decimal, SplitThree;
    HeaderTextFields(t);
    assert HeaderText(t)[1..] == HeaderFields(t);
    SplitJoined(Octal4(t.mode), Decimal(SentHeader(t).size), t.name);
  }

  lemma ParseSentHeader(t: Tree)
    requires Legal(t)
    ensures ParseHeader(HeaderText(t)) == Good(SentHeader(t))
  {
    hide HeaderText, ParseHeader, CheckHeader;
    HeaderIsChecked(t);
    CheckPrintedHeader(t.Folder?, t.mode, SentHeader(t).size, t.name);
  }

  lemma HeaderIsOneLine(t: Tree)
    requires '\n' !in t.name
    ensures '\n' !in HeaderText(t)
  {
    HeaderTextFields(t);
    assert '\n' !in Octal4(t.mode);
  }

  // ---- The receiver fed by the sender ----

  function Announced(r: Receiver, t: Tree, opts: Options): Receiver {
    r.(top := r.top.(pending := SentTimes(t, opts.preserve)),
       out := r.out + Acks(|TimesMessages(t, opts)|))
  }

  /** The receiver after a complete entry that left the store as `fs`. */
  function Settled(r: Receiver, fs: Store, acks: nat): Receiver {
    var done := r.(fs := fs, out := r.out + Acks(acks), phase := InLine(""),
                   top := r.top.(pending := None, received := true));
    if r.top.isDir then done else Leave(done)
  }

  lemma FeedTimes(r: Receiver, t: Tree, opts: Options)
    requires r.phase == InLine("") && r.top.pending == None
    requires -INT64_LIMIT <= t.mtime < INT64_LIMIT
    ensures FeedAll(r, Flatten(TimesMessages(t, opts))) == Announced(r, t, opts)
  {
    if opts.preserve {
      var line := TimesText(t);
      ParseSentTimes(t);
      FeedFullLine(r, line);
      FlattenOne(line + "\n");
      assert Acks(1) == ACK;
    } else {
      assert r.out + Acks(0) == r.out;
    }
  }

  lemma FlattenOne(m: string)
    ensures Flatten([m]) == m
  {
    assert [m][1..] == [];
  }

  lemma FeedHeader(r: Receiver, t: Tree)
    requires r.phase == InLine("") && Legal(t)
    ensures FeedAll(r, HeaderText(t) + "\n") ==
            StartEntry(r, SentHeader(t))
  {
    ParseSentHeader(t);
    HeaderIsOneLine(t);
    HeaderTextFields(t);
    FeedFullLine(r, HeaderText(t));
    DispatchEntry(r, HeaderText(t), SentHeader(t));
  }
}
