/** What the rules of the panel do to any packet, in terms of the texts the administrator typed. */
module FirewallMeaning {
  import opened Prelude
  import opened Firewall

  /** A packet: its protocol, and which source and port specifications hold its address and its port. */
  datatype Packet = Packet(proto: string, comesFrom: string -> bool, goesTo: string -> bool)

  predicate Matches(e: Entry, p: Packet) {
    && (e.proto == None || e.proto == Some(p.proto))
    && (e.source == "0.0.0.0/0" || p.comesFrom(e.source))
    && (e.dport == None || p.goesTo(e.dport.value))
  }

  // ---- The texts ----

  /** The word of a protocol text: lower case, without white space around it and without one "(v6)" in it. */
  ghost predicate ReadsAs(text: string, word: string) {
    exists a, mark, b :: Parted(text, a, mark, b) && word == TrimSpace(a + b)
  }

  predicate Parted(text: string, a: string, mark: string, b: string) {
    ToLower(TrimSpace(text)) == a + mark + b && '(' !in a + b && (mark == "" || mark == "(v6)")
  }

  /** The protocols that a rule of this word is for. */
  predicate ForProtocol(word: string, proto: string) {
    if word == "" || HasPrefix(word, "tcp") then proto == "tcp"
    else if HasPrefix(word, "udp") then proto == "udp"
    else if HasPrefix(word, "icmp") then proto == "icmp"
    else word == "any"
  }

  /** Some protocol, or every one. */
  predicate Known(word: string) {
    word == "" || word == "any" || HasPrefix(word, "tcp") || HasPrefix(word, "udp") || HasPrefix(word, "icmp")
  }

  predicate Everywhere(source: string) {
    ToLower(TrimSpace(source)) in ["", "any", "anywhere", "anywhere (v6)", "0.0.0.0/0", "::/0"]
  }

  predicate EveryPort(port: string) {
    TrimSpace(port) in ["", "any"]
  }

  /** The packets a rule is meant for. */
  predicate Meant(r: Rule, word: string, p: Packet) {
    && ForProtocol(word, p.proto)
    && (Everywhere(r.source) || p.comesFrom(TrimSpace(r.source)))
    && (EveryPort(r.port) || p.goesTo(TrimSpace(r.port)))
  }

  // ---- The protocol ----

  lemma {:induction false} WithoutHead(a: string, x: string)
    requires '(' !in a
    ensures Without(a + x, "(v6)") == a + Without(x, "(v6)")
    decreases a
  {
    if a == "" {
      assert a + x == x;
    } else {
      var s := a + x;
      assert s[0] == a[0] && a[0] in a && "(v6)"[0] == '(';
      assert s[1..] == a[1..] + x;
      WithoutHead(a[1..], x);
    }
  }

  lemma WithoutMark(a: string, mark: string, b: string)
    requires '(' !in a + b && (mark == "" || mark == "(v6)")
    ensures Without(a + mark + b, "(v6)") == a + b
  {
    hide Without;
    assert '(' !in a && '(' !in b by {
      assert forall c | c in a || c in b :: c in a + b;
    }
    WithoutNone(b);
    WithoutHead(a, mark + b);
    assert a + (mark + b) == a + mark + b;
    if mark == "(v6)" {
      WithoutFirst(b);
    } else {
      assert mark + b == b;
    }
  }

  lemma WithoutNone(b: string)
    requires '(' !in b
    ensures Without(b, "(v6)") == b
  {
    WithoutHead(b, "");
    assert b + "" == b;
  }

  lemma WithoutFirst(b: string)
    ensures Without("(v6)" + b, "(v6)") == Without(b, "(v6)")
  {
    var s := "(v6)" + b;
    assert s[..4] == "(v6)" && s[4..] == b;
  }

  lemma ProtocolOfWord(text: string, word: string)
    requires ReadsAs(text, word)
    ensures Protocol(text) == if word == "" || HasPrefix(word, "tcp") then "tcp"
                              else if HasPrefix(word, "udp") then "udp"
                              else if HasPrefix(word, "icmp") then "icmp"
                              else word
  {
    hide TrimSpace, ToLower, Without;
    var a, mark, b :| Parted(text, a, mark, b) && word == TrimSpace(a + b);
    WithoutMark(a, mark, b);
    PrefixesDiffer(word);
  }

  lemma PrefixesDiffer(word: string)
    ensures HasPrefix(word, "tcp") ==> !HasPrefix(word, "udp") && !HasPrefix(word, "icmp") && word != "any"
    ensures HasPrefix(word, "udp") ==> !HasPrefix(word, "icmp") && word != "any"
    ensures HasPrefix(word, "icmp") ==> word != "any"
  {
    assert "tcp"[0] == 't' && "udp"[0] == 'u' && "icmp"[0] == 'i' && "any"[0] == 'a';
    assert HasPrefix(word, "tcp") ==> word[0] == word[..3][0];
    assert HasPrefix(word, "udp") ==> word[0] == word[..3][0];
    assert HasPrefix(word, "icmp") ==> word[0] == word[..4][0];
  }

  /** A text that begins with the name of a protocol, in any case and after any white space, is for that
      protocol, whatever follows the name. */
  lemma ProtocolOfHead(text: string, name: string, before: string, head: string, rest: string)
    requires text == before + head + rest && AllWhite(before)
    requires ToLower(head) == name && (name == "tcp" || name == "udp" || name == "icmp")
    ensures Protocol(text) == name
  {
    hide TrimSpace, Without, ToLower, AllWhite, HasPrefix;
    NameCharacters(head, name);
    TrimmedHead(before, head, rest);
    var tail := LowerHead(TrimSpace(text), head, name);
    WithoutHead(name, tail);
    NameStays(name, Without(tail, "(v6)"));
    NamePrefixed(text, name, tail);
  }

  lemma LowerHead(t: string, head: string, name: string) returns (tail: string)
    requires HasPrefix(t, head) && ToLower(head) == name
    ensures ToLower(t) == name + tail
  {
    tail := ToLower(t)[|head|..];
    assert forall i | 0 <= i < |head| :: ToLower(t)[i] == ToLower(head)[i];
    assert ToLower(t)[..|head|] == name;
  }

  lemma NameStays(name: string, w: string)
    requires name != "" && forall i | 0 <= i < |name| :: !IsWhite(name[i])
    ensures HasPrefix(TrimSpace(name + w), name)
  {
    hide TrimSpace, IsWhite, HasPrefix;
    assert "" + name + w == name + w;
    TrimmedHead("", name, w);
  }

  /** The name of a text whose lower-cased form begins with it. */
  lemma NamePrefixed(text: string, name: string, tail: string)
    requires name == "tcp" || name == "udp" || name == "icmp"
    requires ToLower(TrimSpace(text)) == name + tail && Without(name + tail, "(v6)") == name + Without(tail, "(v6)")
    requires HasPrefix(TrimSpace(name + Without(tail, "(v6)")), name)
    ensures Protocol(text) == name
  {
    hide TrimSpace, Without, ToLower, HasPrefix;
    NamedWord(TrimSpace(name + Without(tail, "(v6)")), name);
  }

  /** The choice among the names, made of a word. */
  lemma NamedWord(v: string, name: string)
    requires (name == "tcp" || name == "udp" || name == "icmp") && HasPrefix(v, name)
    ensures v != "" && v != "any"
    ensures v == "tcp" || v == "udp" || v == "icmp" ==> v == name
    ensures name == (if HasPrefix(v, "tcp") then "tcp" else if HasPrefix(v, "udp") then "udp" else "icmp")
  {
    assert "tcp"[0] == 't' && "udp"[0] == 'u' && "icmp"[0] == 'i' && "any"[0] == 'a';
    assert v[0] == v[..|name|][0] == name[0];
    PrefixesDiffer(v);
  }

  lemma NameCharacters(head: string, name: string)
    requires ToLower(head) == name && (name == "tcp" || name == "udp" || name == "icmp")
    ensures head != "" && '(' !in name
    ensures (forall i | 0 <= i < |head| :: !IsWhite(head[i])) && (forall i | 0 <= i < |name| :: !IsWhite(name[i]))
  {
    assert forall i | 0 <= i < |name| :: 'c' <= name[i] <= 'u';
    forall i | 0 <= i < |head| ensures !IsWhite(head[i]) && !IsWhite(name[i]) {
      assert name[i] == LowerChar(head[i]);
      BlankCharacters();
      assert !BLANK(head[i]) && !BLANK(name[i]);
    }
  }

  // ---- The entry ----

  lemma SourceReads(source: string)
    ensures Source(source) == if Everywhere(source) then "0.0.0.0/0" else TrimSpace(source)
    ensures Source(source) == "0.0.0.0/0" <==> Everywhere(source)
  {
    hide TrimSpace;
    var v := ToLower(TrimSpace(source));
    var names := ["", "any", "anywhere", "anywhere (v6)", "0.0.0.0/0", "::/0"];
    assert names[0] == "" && names[1] == "any" && names[2] == "anywhere" && names[3] == "anywhere (v6)"
           && names[4] == "0.0.0.0/0" && names[5] == "::/0";
    assert ToLower("0.0.0.0/0") == "0.0.0.0/0";
  }

  /** The entry of a rule matches the packets that the rule is meant for, and drops them when it is a deny rule. */
  lemma EntryMeans(r: Rule, word: string, p: Packet)
    requires ReadsAs(r.protocol, word) && Known(word)
    ensures Matches(EntryOf(r), p) <==> Meant(r, word, p)
    ensures EntryOf(r).accept <==> ToLower(r.action) != "deny"
  {
    hide ReadsAs, Protocol, Source, TrimSpace;
    ProtocolOfWord(r.protocol, word);
    PrefixesDiffer(word);
    SourceReads(r.source);
    DenyIsLower();
    EveryPortIff(r.port);
  }

  lemma EveryPortIff(port: string)
    ensures EveryPort(port) <==> TrimSpace(port) == "" || TrimSpace(port) == "any"
  {
    hide TrimSpace;
    assert ["", "any"][0] == "" && ["", "any"][1] == "any";
  }

  lemma DenyIsLower()
    ensures ToLower("deny") == "deny" && ToLower("allow") == "allow"
  {
  }

  /** What the service accepts: a known protocol, no list of ports, and every address or one that parses. */
  predicate Acceptable(host: Host, r: Rule, word: string) {
    && Known(word)
    && (EveryPort(r.port) || ',' !in TrimSpace(r.port))
    && (Everywhere(r.source) || host.parses(TrimSpace(r.source)))
  }

  lemma AcceptableIff(host: Host, r: Rule, word: string)
    requires ReadsAs(r.protocol, word)
    ensures Validates(host, r) <==> Acceptable(host, r, word)
  {
    hide ReadsAs, Protocol, Source, TrimSpace;
    ProtocolOfWord(r.protocol, word);
    PrefixesDiffer(word);
    SourceReads(r.source);
    EveryPortIff(r.port);
    assert "tcp"[..3] == "tcp" && "udp"[..3] == "udp" && "icmp"[..4] == "icmp";
  }

  /** What adding a rule does. A rule that is not acceptable, or that the guard or iptables refuses, changes nothing;
      so does a disabled one. Any other adds one entry at the end, which matches exactly the packets that the rule is
      meant for, and drops them exactly when the action reads "deny". */
  lemma ApplyMeans(host: Host, chain: Chain, r: Rule, word: string)
    requires ReadsAs(r.protocol, word)
    ensures var out := ApplyRule(host, chain, r);
            if !Acceptable(host, r, word) then out == Outcome(chain, false)
            else if !r.enabled then out == Outcome(chain, true)
            else if DeniesSsh(host, r) || !out.ok then out == Outcome(chain, false)
            else
              && |out.chain| == |chain| + 1 && out.chain[..|chain|] == chain
              && var e := out.chain[|chain|];
                 && (forall p :: Matches(e, p) <==> Meant(r, word, p))
                 && (e.accept <==> ToLower(r.action) != "deny")
                 && e.comment == "deploycp:" + r.name
  {
    hide ReadsAs, Validates, Acceptable, DeniesSsh, Matches, Meant;
    AcceptableIff(host, r, word);
    if ApplyRule(host, chain, r).ok && Acceptable(host, r, word) {
      KnownIfAcceptable(host, r, word);
      CommentOf(r);
      hide EntryOf;
      forall p ensures Matches(EntryOf(r), p) <==> Meant(r, word, p) {
        EntryMeans(r, word, p);
      }
      EntryMeans(r, word, Packet("tcp", _ => true, _ => true));
    }
  }

  lemma KnownIfAcceptable(host: Host, r: Rule, word: string)
    requires Acceptable(host, r, word)
    ensures Known(word)
  {
  }

  lemma CommentOf(r: Rule)
    ensures EntryOf(r).comment == "deploycp:" + r.name
  {
  }

  /** A rule whose protocol begins with "tcp", "udp" or "icmp" in any case, after white space and with anything
      behind it, matches packets of that protocol and of no other. */
  lemma HeadMeans(host: Host, chain: Chain, r: Rule, name: string, before: string, head: string, rest: string, p: Packet)
    requires r.protocol == before + head + rest && AllWhite(before)
    requires ToLower(head) == name && (name == "tcp" || name == "udp" || name == "icmp")
    requires r.enabled && ApplyRule(host, chain, r).ok
    ensures var out := ApplyRule(host, chain, r).chain;
            && |out| == |chain| + 1 && out[..|chain|] == chain
            && (Matches(out[|chain|], p) <==>
                  && p.proto == name
                  && (Everywhere(r.source) || p.comesFrom(TrimSpace(r.source)))
                  && (EveryPort(r.port) || p.goesTo(TrimSpace(r.port))))
  {
    hide Protocol, Source, TrimSpace, Validates, DeniesSsh, ToLower;
    ProtocolOfHead(r.protocol, name, before, head, rest);
    assert "tcp"[0] == 't' && "udp"[0] == 'u' && "icmp"[0] == 'i' && "any"[0] == 'a';
    SourceReads(r.source);
    EveryPortIff(r.port);
  }

  // ---- The guard ----

  /** The rules that the guard counts as the operator's SSH: enabled, for TCP, of an address range that the service
      finds to cover them, with one of the SSH ports in it. */
  lemma GuardReads(host: Host, r: Rule, word: string)
    requires ReadsAs(r.protocol, word)
    ensures var counts :=
              && r.enabled && ForProtocol(word, "tcp")
              && (Everywhere(r.source) || host.covers(TrimSpace(r.source)))
              && exists port | port in host.sshPorts :: PortSpecIncludes(TrimSpace(r.port), port);
            && (AllowsSsh(host, r) <==> counts && ToLower(r.action) == "allow")
            && (DeniesSsh(host, r) <==> counts && ToLower(r.action) == "deny")
            && (AllowsSshTrimmed(host, r) <==> counts && ToLower(TrimSpace(r.action)) == "allow")
  {
    hide ReadsAs, Protocol, Source, TrimSpace, PortSpecIncludes;
    ProtocolOfWord(r.protocol, word);
    PrefixesDiffer(word);
    SourceReads(r.source);
    DenyIsLower();
    assert Source(r.source) == "::/0" ==> TrimSpace(r.source) == "::/0" && ToLower("::/0") == "::/0";
  }

  /** Two rules are taken to have the same effect when both or neither is enabled and their entries agree, but for the
      comment and for the case and surrounding white space of the port and the action. */
  lemma SameEffectIff(a: Rule, b: Rule)
    ensures SameHostEffect(a, b) <==>
            && a.enabled == b.enabled
            && EntryOf(a).proto == EntryOf(b).proto && EntryOf(a).source == EntryOf(b).source
            && ToLower(TrimSpace(a.port)) == ToLower(TrimSpace(b.port))
            && ToLower(TrimSpace(a.action)) == ToLower(TrimSpace(b.action))
  {
    hide Protocol, Source, TrimSpace;
  }

  // ---- The command ----

  /** The value given for an option, options and values taken in turn. */
  function Given(arguments: seq<string>, name: string): Option<string>
    decreases |arguments|
  {
    if |arguments| < 2 then None
    else if arguments[0] == name then Some(arguments[1])
    else Given(arguments[2..], name)
  }

  lemma GivenStep(name: string, value: string, rest: seq<string>, other: string)
    ensures Given([name, value] + rest, other) == if name == other then Some(value) else Given(rest, other)
  {
    assert ([name, value] + rest)[2..] == rest;
  }

  lemma GivenMaybe(name: string, value: Option<string>, rest: seq<string>, other: string)
    ensures Given((if value.Some? then [name, value.value] else []) + rest, other) ==
            if name == other && value.Some? then value else Given(rest, other)
  {
    if value.Some? {
      GivenStep(name, value.value, rest, other);
    } else {
      assert [] + rest == rest;
    }
  }

  /** The command line says what the entry is: each option carries its part, and a part that is absent is not given. */
  lemma ArgumentsSay(e: Entry)
    ensures Given(Arguments(e), "-p") == e.proto
    ensures Given(Arguments(e), "-s") == Some(e.source)
    ensures Given(Arguments(e), "--dport") == e.dport
    ensures Given(Arguments(e), "-m") == Some("comment") && Given(Arguments(e), "--comment") == Some(e.comment)
    ensures Given(Arguments(e), "-j") == Some(if e.accept then "ACCEPT" else "DROP")
  {
    hide Given;
    forall name | name in ["-p", "-s", "--dport", "-m", "--comment", "-j"]
      ensures Given(Arguments(e), name) ==
              if name == "-p" && e.proto.Some? then e.proto
              else if name == "-s" then Some(e.source)
              else if name == "--dport" && e.dport.Some? then e.dport
              else if name == "-m" then Some("comment")
              else if name == "--comment" then Some(e.comment)
              else if name == "-j" then Some(if e.accept then "ACCEPT" else "DROP")
              else None
    {
      ArgumentsGive(e, name);
    }
    assert "-p"[1] == 'p' && "-s"[1] == 's' && "--dport"[1] == '-' && "--dport"[2] == 'd' && "-m"[1] == 'm';
    assert "--comment"[1] == '-' && "--comment"[2] == 'c' && "-j"[1] == 'j';
  }

  lemma ArgumentsGive(e: Entry, name: string)
    ensures Given(Arguments(e), name) ==
            if name == "-p" && e.proto.Some? then e.proto
            else if name == "-s" then Some(e.source)
            else if name == "--dport" && e.dport.Some? then e.dport
            else if name == "-m" then Some("comment")
            else if name == "--comment" then Some(e.comment)
            else if name == "-j" then Some(if e.accept then "ACCEPT" else "DROP")
            else None
  {
    var verdict := if e.accept then "ACCEPT" else "DROP";
    var port := if e.dport.Some? then ["--dport", e.dport.value] else [];
    var tail := ["--comment", e.comment] + ["-j", verdict];
    assert Arguments(e) ==
      (if e.proto.Some? then ["-p", e.proto.value] else []) + (["-s", e.source] + (port + (["-m", "comment"] + tail)));
    hide Given;
    GivenMaybe("-p", e.proto, ["-s", e.source] + (port + (["-m", "comment"] + tail)), name);
    GivenStep("-s", e.source, port + (["-m", "comment"] + tail), name);
    GivenMaybe("--dport", e.dport, ["-m", "comment"] + tail, name);
    GivenStep("-m", "comment", tail, name);
    GivenStep("--comment", e.comment, ["-j", verdict], name);
    GivenLast(verdict, name);
  }

  lemma GivenLast(verdict: string, name: string)
    ensures Given(["-j", verdict], name) == if name == "-j" then Some(verdict) else None
  {
    assert ["-j", verdict][2..] == [];
  }
}
