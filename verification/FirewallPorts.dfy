/** How the guard and iptables read a port, and the rules on which they differ. */
module FirewallPorts {
  import opened Prelude
  import opened Firewall
  import opened FirewallSsh
  import opened Numbers

  // ---- What the guard includes ----

  /** A range given in either order, with a colon or a dash, includes exactly the ports between its ends. */
  lemma RangeMeaning(a: nat, b: nat, port: nat, sep: char)
    requires a <= 65535 && b <= 65535 && port <= 65535 && (sep == ':' || sep == '-')
    ensures PortSpecIncludes(Decimal(a) + [sep] + Decimal(b), Decimal(port)) <==>
            (if a < b then a else b) <= port <= (if a < b then b else a)
  {
    hide TrimSpace, Decimal, ParseInt64, ToLower, RangeIncludes;
    var x, y := Decimal(a), Decimal(b);
    var spec := x + [sep] + y;
    DigitsTrimmed(a);
    DigitsTrimmed(b);
    DigitsTrimmed(port);
    SpecTrimmed(x, y, sep);
    ParseDecimal(port);
    assert spec[|x|] == sep;
    assert sep in spec && sep !in Decimal(port) && sep !in "any";
    HalvesParse(a, b, port, sep);
    if sep == '-' {
      assert ':' !in spec;
      NoSeparator(spec, ':', port);
    }
  }

  lemma HalvesParse(a: nat, b: nat, port: nat, sep: char)
    requires a <= 65535 && b <= 65535 && (sep == ':' || sep == '-')
    ensures RangeIncludes(Decimal(a) + [sep] + Decimal(b), sep, port) ==
            Some((if a < b then a else b) <= port <= (if a < b then b else a))
  {
    hide TrimSpace, Decimal, ParseInt64;
    var x, y := Decimal(a), Decimal(b);
    var spec := x + [sep] + y;
    DigitsTrimmed(a);
    DigitsTrimmed(b);
    ParseDecimal(a);
    ParseDecimal(b);
    IndexOfConcat(x, sep, y);
    assert spec[..|x|] == x && spec[|x| + 1..] == y;
  }

  lemma NoSeparator(spec: string, sep: char, port: int)
    requires sep !in spec
    ensures RangeIncludes(spec, sep, port) == None
  {
    IndexOfAbsent(spec, sep);
  }

  /** A range that is open at one end includes no port at all. */
  lemma OpenRangeIncludesNothing(a: nat, port: nat)
    ensures !PortSpecIncludes(":" + Decimal(a), Decimal(port))
    ensures !PortSpecIncludes(Decimal(a) + ":", Decimal(port))
  {
    hide PortSpecIncludes, Decimal, TrimSpace, ToLower;
    DigitsTrimmed(a);
    OpenEndIncludesNothing("", Decimal(a), port);
    OpenEndIncludesNothing(Decimal(a), "", port);
    assert "" + [':'] + Decimal(a) == ":" + Decimal(a) && Decimal(a) + [':'] + "" == Decimal(a) + ":";
  }

  lemma OpenEndIncludesNothing(x: string, y: string, port: nat)
    requires Digits(x) && Digits(y) && (x == "" || y == "")
    ensures !PortSpecIncludes(x + [':'] + y, Decimal(port))
  {
    hide TrimSpace, Decimal, ParseInt64, ToLower, RangeIncludes;
    var spec := x + [':'] + y;
    DigitsTrimmed(port);
    assert spec[|x|] == ':' && ':' in spec && ':' !in "any";
    DigitSpec(spec);
    OneHalfEmpty(x, y, port);
    assert forall i | 0 <= i < |spec| :: spec[i] != '-';
  }

  lemma OneHalfEmpty(x: string, y: string, port: nat)
    requires Digits(x) && Digits(y) && (x == "" || y == "")
    ensures forall p: int :: RangeIncludes(x + [':'] + y, ':', p) == None
    ensures forall p: int :: '-' !in x + [':'] + y ==> RangeIncludes(x + [':'] + y, '-', p) == None
  {
    hide TrimSpace;
    var spec := x + [':'] + y;
    IndexOfConcat(x, ':', y);
    assert spec[..|x|] == x && spec[|x| + 1..] == y;
    TrimmedWord("");
    NothingParses();
    if '-' !in spec { IndexOfAbsent(spec, '-'); }
  }

  lemma NothingParses()
    ensures ParseInt64("") == None
  {
  }

  predicate Digits(s: string) {
    forall i | 0 <= i < |s| :: '0' <= s[i] <= '9'
  }

  /** Digits and colons are neither trimmed nor lowered. */
  lemma DigitSpec(spec: string)
    requires spec != "" && forall i | 0 <= i < |spec| :: '0' <= spec[i] <= ':'
    ensures PortSpec(spec) == spec
  {
    TrimmedWord(spec);
    assert forall i | 0 <= i < |spec| :: LowerChar(spec[i]) == spec[i];
    assert ToLower(spec) == spec;
  }

  /** Nor does a name, or anything else without digits to compare. */
  lemma NameIncludesNothing(spec: string, port: nat)
    requires PortSpec(spec) == spec && spec != "" && spec != "any" && spec != Decimal(port)
    requires ':' !in spec && '-' !in spec
    ensures !PortSpecIncludes(spec, Decimal(port))
  {
    hide TrimSpace, Decimal, ParseInt64, ToLower;
    DigitsTrimmed(port);
    IndexOfAbsent(spec, ':');
    IndexOfAbsent(spec, '-');
  }

  lemma DigitsTrimmed(n: nat)
    ensures var s := Decimal(n); TrimSpace(s) == s && ToLower(s) == s && ':' !in s && '-' !in s && s != "" && Digits(s)
  {
    var s := Decimal(n);
    assert forall i | 0 <= i < |s| :: IsDigit(s[i], 10) && LowerChar(s[i]) == s[i];
    assert IsDigit(s[0], 10) && IsDigit(s[|s| - 1], 10);
    TrimmedWord(s);
    assert ToLower(s) == s;
  }

  lemma SpecTrimmed(x: string, y: string, sep: char)
    requires (sep == ':' || sep == '-')
    requires x != "" && y != "" && ToLower(x) == x && ToLower(y) == y && TrimSpace(x) == x && TrimSpace(y) == y
    ensures PortSpec(x + [sep] + y) == x + [sep] + y
  {
    var s := x + [sep] + y;
    TrimmedEnds(x);
    TrimmedEnds(y);
    assert s[0] == x[0] && s[|s| - 1] == y[|y| - 1];
    TrimmedWord(s);
    assert forall i | 0 <= i < |s| :: LowerChar(s[i]) == s[i] by {
      forall i | 0 <= i < |s| ensures LowerChar(s[i]) == s[i] {
        if i < |x| { assert ToLower(x)[i] == LowerChar(x[i]); }
        else if i > |x| { assert ToLower(y)[i - |x| - 1] == LowerChar(y[i - |x| - 1]); }
      }
    }
    assert ToLower(s) == s;
  }

  lemma TrimmedEnds(s: string)
    requires s != "" && TrimSpace(s) == s
    ensures !IsBlank(s[0]) && !IsBlank(s[|s| - 1])
  {
    var l := TrimLeft(s, BLANK);
    assert |l| == |s|;
    assert l == s;
  }

  /** A single port includes itself only. */
  lemma SinglePortMeaning(a: nat, port: nat)
    requires a <= 65535 && port <= 65535
    ensures PortSpecIncludes(Decimal(a), Decimal(port)) <==> a == port
  {
    hide TrimSpace, Decimal, ParseInt64, ToLower;
    DigitsTrimmed(a);
    DigitsTrimmed(port);
    ParseDecimal(a);
    ParseDecimal(port);
    var s := Decimal(a);
    assert ':' !in s && '-' !in s by { NoDash(a); }
    IndexOfAbsent(s, ':');
    IndexOfAbsent(s, '-');
    NotAny(a);
  }

  lemma NoDash(n: nat)
    ensures '-' !in Decimal(n)
  {
  }

  lemma NotAny(n: nat)
    ensures Decimal(n) != "any" && Decimal(n) != ""
  {
    assert IsDigit(Decimal(n)[0], 10);
  }

  // ---- What iptables matches ----

  /** The documented reading of --dport for decimal numbers: a port, or a range whose first end may be
      left out for 0 and whose last end may be left out for 65535. */
  ghost predicate Documented(host: Host) {
    && (forall a: nat, port: nat | a <= 65535 && port <= 65535 ::
          host.matchesDport(Decimal(a), Decimal(port)) <==> a == port)
    && (forall a: nat, b: nat, port: nat | a <= b <= 65535 && port <= 65535 ::
          host.matchesDport(Decimal(a) + ":" + Decimal(b), Decimal(port)) <==> a <= port <= b)
    && (forall b: nat, port: nat | b <= 65535 && port <= 65535 ::
          host.matchesDport(":" + Decimal(b), Decimal(port)) <==> port <= b)
    && (forall a: nat, port: nat | a <= 65535 && port <= 65535 ::
          host.matchesDport(Decimal(a) + ":", Decimal(port)) <==> a <= port)
  }

  /** Every SSH port is a number as sshd prints it. */
  ghost predicate NumberedPorts(host: Host) {
    forall s | s in host.sshPorts :: exists port: nat :: port <= 65535 && s == Decimal(port)
  }

  /** No port, "any", one port, or a range with both ends in order. */
  ghost predicate PlainSpec(spec: string) {
    || spec == "" || spec == "any"
    || (exists a: nat :: a <= 65535 && spec == Decimal(a))
    || (exists a: nat, b: nat :: a <= b <= 65535 && spec == Decimal(a) + ":" + Decimal(b))
  }

  /** Plain specifications are read alike, so SshIsNeverLost holds for them. */
  lemma PlainIsReadAlike(host: Host, spec: string)
    requires Documented(host) && NumberedPorts(host) && PlainSpec(spec)
    ensures PortReadAlike(host, spec)
  {
    hide PortSpecIncludes, Decimal;
    forall s | s in host.sshPorts && spec != "" && spec != "any"
      ensures host.matchesDport(spec, s) <==> PortSpecIncludes(spec, s)
    {
      var port: nat :| port <= 65535 && s == Decimal(port);
      if a: nat :| a <= 65535 && spec == Decimal(a) {
        SinglePortMeaning(a, port);
      } else {
        var a: nat, b: nat :| a <= b <= 65535 && spec == Decimal(a) + ":" + Decimal(b);
        RangeMeaning(a, b, port, ':');
      }
    }
  }

  /** Such a host exists: iptables as its manual describes it. */
  function ManualReading(spec: string, port: string): bool {
    var p := ParseInt64(port);
    var halves := Halves(spec, ':');
    p.Some? &&
    if halves.None? then ParseInt64(spec) == p
    else
      var low := if halves.value.0 == "" then Some(0) else ParseInt64(halves.value.0);
      var high := if halves.value.1 == "" then Some(65535) else ParseInt64(halves.value.1);
      low.Some? && high.Some? && low.value <= p.value <= high.value
  }

  lemma ManualIsDocumented(host: Host)
    ensures Documented(host.(matchesDport := ManualReading))
  {
    hide Decimal, ManualReading;
    forall a: nat, port: nat | a <= 65535 && port <= 65535
      ensures ManualReading(Decimal(a), Decimal(port)) <==> a == port
      ensures ManualReading(":" + Decimal(a), Decimal(port)) <==> port <= a
      ensures ManualReading(Decimal(a) + ":", Decimal(port)) <==> a <= port
    {
      ManualPort(a, port);
      ManualOpen(a, port);
    }
    forall a: nat, b: nat, port: nat | a <= b <= 65535 && port <= 65535
      ensures ManualReading(Decimal(a) + ":" + Decimal(b), Decimal(port)) <==> a <= port <= b
    {
      ManualClosed(a, b, port);
    }
  }

  lemma ManualClosed(a: nat, b: nat, port: nat)
    requires a <= b <= 65535 && port <= 65535
    ensures ManualReading(Decimal(a) + ":" + Decimal(b), Decimal(port)) <==> a <= port <= b
  {
    hide Decimal, ParseInt64, ManualReading;
    DigitsTrimmed(a);
    DigitsTrimmed(b);
    ParseDecimal(a);
    ParseDecimal(b);
    ManualRange(Decimal(a), Decimal(b), port);
  }

  lemma ManualOpen(a: nat, port: nat)
    requires a <= 65535 && port <= 65535
    ensures ManualReading(":" + Decimal(a), Decimal(port)) <==> port <= a
    ensures ManualReading(Decimal(a) + ":", Decimal(port)) <==> a <= port
  {
    hide Decimal, ParseInt64, ManualReading;
    DigitsTrimmed(a);
    ParseDecimal(a);
    ManualRange("", Decimal(a), port);
    ManualRange(Decimal(a), "", port);
    assert "" + ":" + Decimal(a) == ":" + Decimal(a) && Decimal(a) + ":" + "" == Decimal(a) + ":";
  }

  lemma ManualPort(a: nat, port: nat)
    requires a <= 65535 && port <= 65535
    ensures ManualReading(Decimal(a), Decimal(port)) <==> a == port
  {
    hide Decimal, ParseInt64;
    DigitsTrimmed(a);
    IndexOfAbsent(Decimal(a), ':');
    ParseDecimal(a);
    ParseDecimal(port);
  }

  lemma ManualRange(x: string, y: string, port: nat)
    requires Digits(x) && port <= 65535
    ensures var low := if x == "" then Some(0) else ParseInt64(x);
            var high := if y == "" then Some(65535) else ParseInt64(y);
            ManualReading(x + ":" + y, Decimal(port)) <==>
            low.Some? && high.Some? && low.value <= port <= high.value
  {
    hide Decimal, ParseInt64;
    var spec := x + [':'] + y;
    IndexOfConcat(x, ':', y);
    assert spec == x + ":" + y && spec[..|x|] == x && spec[|x| + 1..] == y;
    ParseDecimal(port);
  }

  // ---- Inputs on which SSH is lost ----

  /** SSH from anywhere, as the panel stores it. */
  const SSH_RULE := Rule("ssh", "tcp", "any", "", "allow", true)

  lemma PlainSshEntry()
    ensures var e := EntryOf(SSH_RULE);
            e.accept && e.proto == Some("tcp") && e.source == ANYWHERE && e.dport == None
  {
    hide TrimSpace, Without;
    TrimmedWord("tcp");
    TrimmedWord("any");
    TrimmedWord("");
    assert ToLower("tcp") == "tcp" && ToLower("") == "";
    WithoutAbsent("tcp", "(v6)");
    AllowIsNotDeny("allow");
    assert EqualFold("allow", "allow");
  }

  lemma SshRuleOpens(host: Host)
    ensures Opens(host, EntryOf(SSH_RULE)) && Safe(host, [EntryOf(SSH_RULE)])
  {
    hide EntryOf;
    PlainSshEntry();
    assert Opens(host, [EntryOf(SSH_RULE)][0]);
  }

  function DenyUpTo(b: nat): Rule {
    Rule("block", "tcp", ":" + Decimal(b), "", "deny", true)
  }

  /** A deny rule for the ports up to b passes the guard, which includes no port in it, and blocks SSH. */
  lemma OpenRangeDenyLosesSsh(host: Host, b: nat, port: nat)
    requires Documented(host) && host.sshPorts == {Decimal(port)} && port <= b <= 65535
    requires host.takes(EntryOf(DenyUpTo(b)))
    ensures var chain := [EntryOf(SSH_RULE)];
            var after := ApplyRule(host, chain, DenyUpTo(b));
            Safe(host, chain) && after == Outcome(chain + [EntryOf(DenyUpTo(b))], true) && !Safe(host, after.chain)
  {
    hide EntryOf, Validates, Safe, Blocks, UsesSshPort, PortSpecIncludes, Decimal, Protocol, Source, Documented;
    SshRuleOpens(host);
    DenyUpToPasses(host, b, port);
    DenyUpToBlocks(host, b, port);
    ApplySafeIff(host, host, [EntryOf(SSH_RULE)], DenyUpTo(b));
  }

  lemma DenyUpToPasses(host: Host, b: nat, port: nat)
    requires host.sshPorts == {Decimal(port)}
    ensures Validates(host, DenyUpTo(b)) && !DeniesSsh(host, DenyUpTo(b))
  {
    hide TrimSpace, ToLower, Without, Decimal, PortSpecIncludes, Protocol, Source;
    TcpFromAnywhere();
    OpenSpec(b);
    OpenRangeIncludesNothing(b, port);
  }

  lemma OpenSpec(b: nat)
    ensures TrimSpace(":" + Decimal(b)) == ":" + Decimal(b) && ',' !in ":" + Decimal(b)
  {
    hide Decimal, TrimSpace, ToLower;
    DigitsTrimmed(b);
    CommaFree(b);
    var spec := ":" + Decimal(b);
    assert spec[0] == ':' && spec[|spec| - 1] == Decimal(b)[|spec| - 2];
    TrimmedWord(spec);
  }

  lemma DenyUpToBlocks(host: Host, b: nat, port: nat)
    requires Documented(host) && host.sshPorts == {Decimal(port)} && port <= b <= 65535
    ensures Blocks(host, EntryOf(DenyUpTo(b)))
  {
    hide TrimSpace, ToLower, Without, Decimal, PortSpecIncludes, Protocol, Source;
    TcpFromAnywhere();
    OpenSpec(b);
    DenyWord();
    assert (":" + Decimal(b))[0] == ':' && "any"[0] == 'a';
    assert host.matchesDport(":" + Decimal(b), Decimal(port));
  }

  lemma DenyWord()
    ensures EqualFold("deny", "deny")
  {
  }

  /** A disabled twin of the SSH rule: deleting it deletes the SSH rule. */
  lemma DisabledTwinLosesSsh(host: Host)
    ensures var chain := [EntryOf(SSH_RULE)];
            var after := DeleteRule(host, chain, SSH_RULE.(enabled := false)).chain;
            Safe(host, chain) && after == [] && !Safe(host, after)
  {
    hide TrimSpace, Protocol, Source, EqualFold;
    SshRuleOpens(host);
    var e := EntryOf(SSH_RULE);
    assert EntryOf(SSH_RULE.(enabled := false)) == e && FirstIndex([e], e) == 0;
    assert [e][..0] + [e][1..] == [];
  }

  /** So does renaming that twin. */
  lemma RenamingDisabledTwinLosesSsh(host: Host)
    ensures var chain := [EntryOf(SSH_RULE)];
            var twin := SSH_RULE.(enabled := false);
            var after := ReplaceRule(host, chain, twin, twin.(name := "old ssh")).chain;
            Safe(host, chain) && after == [] && !Safe(host, after)
  {
    hide TrimSpace, Protocol, Source, EqualFold, Delete;
    SshRuleOpens(host);
    DisabledTwinLosesSsh(host);
    TcpFromAnywhere();
    TrimmedWord("any");
  }

  /** With two SSH ports the guard is satisfied by either: a rule for the port in use can be changed
      into a rule for the other one, and that port is then no longer accepted. */
  lemma PortInUseCanBeLost(host: Host)
    requires Documented(host) && host.sshPorts == {Decimal(22), Decimal(2222)}
    requires host.takes(EntryOf(SSH_RULE.(port := Decimal(2222))))
    ensures var used, other := SSH_RULE.(port := Decimal(22)), SSH_RULE.(port := Decimal(2222));
            var after := ReplaceRule(host, [EntryOf(used)], used, other).chain;
            && Safe(On(host, Decimal(22)), [EntryOf(used)])
            && after == [EntryOf(other)]
            && !Safe(On(host, Decimal(22)), after)
  {
    hide TrimSpace, ToLower, Without, Decimal, PortSpecIncludes, EqualFold, Source, Protocol, Documented;
    var used, other := SSH_RULE.(port := Decimal(22)), SSH_RULE.(port := Decimal(2222));
    TcpFromAnywhere();
    SinglePortMeaning(22, 22);
    SinglePortMeaning(2222, 2222);
    DigitsTrimmed(22);
    DigitsTrimmed(2222);
    NotAny(22);
    NotAny(2222);
    AllowedWord();
    ParseDecimal(22);
    ParseDecimal(2222);
    assert Decimal(22) != Decimal(2222);
    CommaFree(2222);
    var a, b := EntryOf(used), EntryOf(other);
    OnPort22(host, a, b);
    assert AllowsSsh(host, used) && AllowsSshTrimmed(host, other) && !DeniesSsh(host, other);
    assert PortSpec(used.port) == Decimal(22) && PortSpec(other.port) == Decimal(2222);
    assert Append(host, [a], b) == Outcome([a, b], true) by { assert [a] + [b] == [a, b]; }
    assert FirstIndex([a, b], a) == 0 && [a, b][..0] + [a, b][1..] == [b];
  }

  lemma OnPort22(host: Host, a: Entry, b: Entry)
    requires Documented(host)
    requires a.proto == b.proto == Some("tcp") && a.source == b.source == ANYWHERE && a.accept && b.accept
    requires a.dport == Some(Decimal(22)) && b.dport == Some(Decimal(2222))
    ensures Safe(On(host, Decimal(22)), [a]) && !Safe(On(host, Decimal(22)), [b])
  {
    hide Decimal;
    assert host.matchesDport(Decimal(22), Decimal(22)) && !host.matchesDport(Decimal(2222), Decimal(22));
    assert Opens(On(host, Decimal(22)), [a][0]);
  }

  lemma {:induction false} WithoutAbsent(s: string, pattern: string)
    requires pattern != "" && forall i | 0 <= i < |s| :: s[i] != pattern[0]
    ensures Without(s, pattern) == s
    decreases |s|
  {
    if s != "" {
      WithoutAbsent(s[1..], pattern);
      assert |pattern| <= |s| ==> s[..|pattern|][0] == s[0];
    }
  }

  lemma CommaFree(n: nat)
    ensures ',' !in Decimal(n)
  {
  }

  lemma TcpFromAnywhere()
    ensures Protocol("tcp") == "tcp" && Source("") == ANYWHERE
  {
    hide TrimSpace, Without;
    TrimmedWord("tcp");
    TrimmedWord("");
    assert ToLower("tcp") == "tcp" && ToLower("") == "";
    WithoutAbsent("tcp", "(v6)");
  }

  lemma AllowedWord()
    ensures EqualFold("allow", "allow") && !EqualFold("allow", "deny") && TrimSpace("allow") == "allow"
  {
    TrimmedWord("allow");
    AllowIsNotDeny("allow");
  }
}
