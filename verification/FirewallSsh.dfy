/** The operator's own SSH access: exactly when a request to the firewall service loses it. */
module FirewallSsh {
  import opened Prelude
  import opened Firewall

  // ---- What the chain does to SSH ----

  /** The entry matches the operator's SSH: TCP, their address, one of the SSH ports. */
  predicate MatchesSsh(host: Host, e: Entry) {
    && (e.proto == None || e.proto == Some("tcp"))
    && (e.source == ANYWHERE || host.matchesSource(e.source))
    && (e.dport == None || exists port | port in host.sshPorts :: host.matchesDport(e.dport.value, port))
  }

  predicate Opens(host: Host, e: Entry) {
    e.accept && MatchesSsh(host, e)
  }

  predicate Blocks(host: Host, e: Entry) {
    !e.accept && MatchesSsh(host, e)
  }

  /** Some rule accepts the operator's SSH and none drops it: no order of the chain can lock them out. */
  predicate Safe(host: Host, chain: Chain) {
    && (exists i | 0 <= i < |chain| :: Opens(host, chain[i]))
    && (forall i | 0 <= i < |chain| :: !Blocks(host, chain[i]))
  }

  /** The entry that `iptables -D` takes out is the only one that accepts the operator's SSH. */
  predicate OnlyOpening(host: Host, chain: Chain, e: Entry) {
    Opens(host, e) && e in chain &&
    forall i | 0 <= i < |chain| && i != FirstIndex(chain, e) :: !Opens(host, chain[i])
  }

  /** The same host, with the operator connected to one of its SSH ports. */
  function On(host: Host, port: string): Host {
    host.(sshPorts := {port})
  }

  // ---- One entry more, one entry less ----

  lemma AppendSafeIff(host: Host, chain: Chain, e: Entry)
    requires Safe(host, chain)
    ensures Safe(host, chain + [e]) <==> !Blocks(host, e)
  {
    hide MatchesSsh;
    var i :| 0 <= i < |chain| && Opens(host, chain[i]);
    assert (chain + [e])[i] == chain[i] && (chain + [e])[|chain|] == e;
  }

  lemma DeleteSafe(host: Host, chain: Chain, e: Entry, keep: nat)
    requires Safe(host, chain) && keep < |chain| && Opens(host, chain[keep])
    requires keep != FirstIndex(chain, e)
    ensures Safe(host, Delete(chain, e).chain)
  {
    hide MatchesSsh;
    var i := FirstIndex(chain, e);
    if i < |chain| {
      var rest := chain[..i] + chain[i + 1..];
      assert forall j | 0 <= j < |rest| :: rest[j] == if j < i then chain[j] else chain[j + 1];
      assert rest[if keep < i then keep else keep - 1] == chain[keep];
    }
  }

  lemma DeleteSafeIff(host: Host, chain: Chain, e: Entry)
    requires Safe(host, chain)
    ensures Safe(host, Delete(chain, e).chain) <==> !OnlyOpening(host, chain, e)
    ensures OnlyOpening(host, chain, e) ==> NoneOpens(host, Delete(chain, e).chain)
    ensures NoneBlocks(host, Delete(chain, e).chain)
  {
    hide MatchesSsh;
    var i := FirstIndex(chain, e);
    var rest := Delete(chain, e).chain;
    assert forall j | 0 <= j < |rest| :: rest[j] == if j < i then chain[j] else chain[j + 1];
    if !OnlyOpening(host, chain, e) {
      var keep: nat :| keep < |chain| && Opens(host, chain[keep]) && keep != i;
      DeleteSafe(host, chain, e, keep);
    }
  }

  predicate NoneOpens(host: Host, chain: Chain) {
    forall i | 0 <= i < |chain| :: !Opens(host, chain[i])
  }

  predicate NoneBlocks(host: Host, chain: Chain) {
    forall i | 0 <= i < |chain| :: !Blocks(host, chain[i])
  }

  /** Adding an accepting entry to a chain that has lost SSH restores it. */
  lemma AppendRestoresIff(host: Host, chain: Chain, e: Entry)
    requires NoneOpens(host, chain) && NoneBlocks(host, chain)
    ensures Safe(host, chain + [e]) <==> Opens(host, e)
    ensures !Safe(host, chain)
  {
    hide MatchesSsh;
    var longer := chain + [e];
    assert longer[|chain|] == e;
    assert forall i | 0 <= i < |chain| :: longer[i] == chain[i];
  }

  // ---- One request, on every host and for every rule ----
  // `seen` is the host as the operator meets it: the host itself, or the host on one port.

  /** ApplyRule appends an entry. */
  predicate Appends(host: Host, r: Rule) {
    Validates(host, r) && r.enabled && !DeniesSsh(host, r) && host.takes(EntryOf(r))
  }

  /** The replacement applies the new rule and then deletes the old one. */
  predicate Swaps(host: Host, existing: Rule, next: Rule) {
    && AllowsSsh(host, existing) && !SameHostEffect(existing, next)
    && AllowsSshTrimmed(host, next) && Appends(host, next)
  }

  /** The replacement deletes the old rule first. */
  predicate DropsFirst(host: Host, existing: Rule, next: Rule) {
    Validates(host, next) && !AllowsSsh(host, existing) && !DeniesSsh(host, next)
  }

  lemma ApplySafeIff(host: Host, seen: Host, chain: Chain, r: Rule)
    requires Safe(seen, chain)
    ensures Safe(seen, ApplyRule(host, chain, r).chain) <==> !(Appends(host, r) && Blocks(seen, EntryOf(r)))
  {
    hide Safe, Blocks, Validates, DeniesSsh, EntryOf;
    if Appends(host, r) {
      AppendSafeIff(seen, chain, EntryOf(r));
    }
  }

  lemma DeleteRuleSafeIff(host: Host, seen: Host, chain: Chain, r: Rule)
    requires Safe(seen, chain)
    ensures Safe(seen, DeleteRule(host, chain, r).chain) <==>
            !(!AllowsSsh(host, r) && OnlyOpening(seen, chain, EntryOf(r)))
  {
    hide Safe, OnlyOpening, AllowsSsh, EntryOf, Delete;
    DeleteSafeIff(seen, chain, EntryOf(r));
  }

  /** What the two orders of a replacement lose. */
  predicate SwapLoses(host: Host, seen: Host, chain: Chain, existing: Rule, next: Rule) {
    Swaps(host, existing, next) && OnlyOpening(seen, chain + [EntryOf(next)], EntryOf(existing))
  }

  predicate DropLoses(host: Host, seen: Host, chain: Chain, existing: Rule, next: Rule) {
    && DropsFirst(host, existing, next) && EntryOf(existing) in chain
    && if Appends(host, next) then
         || Blocks(seen, EntryOf(next))
         || (OnlyOpening(seen, chain, EntryOf(existing)) && !Opens(seen, EntryOf(next)))
       else OnlyOpening(seen, chain, EntryOf(existing))
  }

  /** A replacement loses SSH exactly in these two ways, whatever the rules and the host. */
  lemma ReplaceSafeIff(host: Host, seen: Host, chain: Chain, existing: Rule, next: Rule)
    requires Safe(seen, chain)
    ensures Safe(seen, ReplaceRule(host, chain, existing, next).chain) <==>
            !SwapLoses(host, seen, chain, existing, next) && !DropLoses(host, seen, chain, existing, next)
  {
    hide *;
    if AllowsSsh(host, existing) {
      SwapSafeIff(host, seen, chain, existing, next);
    } else {
      DropSafeIff(host, seen, chain, existing, next);
    }
  }

  lemma SwapSafeIff(host: Host, seen: Host, chain: Chain, existing: Rule, next: Rule)
    requires Safe(seen, chain) && AllowsSsh(host, existing)
    ensures Safe(seen, ReplaceRule(host, chain, existing, next).chain) <==>
            !SwapLoses(host, seen, chain, existing, next)
    ensures !DropLoses(host, seen, chain, existing, next)
  {
    hide Safe, OnlyOpening, Opens, Blocks, Validates, DeniesSsh, AllowsSsh, AllowsSshTrimmed, SameHostEffect, EntryOf, Delete;
    if AllowsSshTrimmed(host, next) {
      TrimmedAllowAccepts(host, next);
    }
    if Swaps(host, existing, next) {
      AppendSafeIff(seen, chain, EntryOf(next));
      AcceptedDoesNotBlock(seen, EntryOf(next));
      DeleteSafeIff(seen, chain + [EntryOf(next)], EntryOf(existing));
    }
  }

  lemma TrimmedAllowAccepts(host: Host, r: Rule)
    requires AllowsSshTrimmed(host, r)
    ensures EntryOf(r).accept && r.enabled
  {
    hide TrimLeft, TrimRight, PortSpecIncludes, SourceAllows, Protocol, Source;
    if EqualFold(r.action, "deny") {
      TrimmedDeny(r.action);
      AllowIsNotDeny(TrimSpace(r.action));
    }
  }

  /** A text that reads "deny" in any case has nothing to trim. */
  lemma TrimmedDeny(action: string)
    requires EqualFold(action, "deny")
    ensures TrimSpace(action) == action
  {
    assert |ToLower(action)| == 4;
    assert ToLower(action)[0] == 'd' && ToLower(action)[3] == 'y';
    TrimmedWord(action);
  }

  lemma AllowIsNotDeny(a: string)
    ensures !(EqualFold(a, "allow") && EqualFold(a, "deny"))
  {
    assert |"allow"| == 5 && |"deny"| == 4;
  }

  lemma AcceptedDoesNotBlock(host: Host, e: Entry)
    requires e.accept
    ensures !Blocks(host, e)
  {
  }

  lemma DropSafeIff(host: Host, seen: Host, chain: Chain, existing: Rule, next: Rule)
    requires Safe(seen, chain) && !AllowsSsh(host, existing)
    ensures Safe(seen, ReplaceRule(host, chain, existing, next).chain) <==>
            !DropLoses(host, seen, chain, existing, next)
    ensures !SwapLoses(host, seen, chain, existing, next)
  {
    hide Safe, OnlyOpening, Opens, Blocks, Validates, DeniesSsh, AllowsSsh, EntryOf, NoneOpens, NoneBlocks;
    var e := EntryOf(existing);
    if DropsFirst(host, existing, next) && e in chain {
      var rest := Delete(chain, e).chain;
      DeleteSafeIff(seen, chain, e);
      if OnlyOpening(seen, chain, e) {
        AppendRestoresIff(seen, rest, EntryOf(next));
        OpensOrBlocks(seen, EntryOf(next));
      } else {
        ApplySafeIff(host, seen, rest, next);
      }
    }
  }

  lemma OpensOrBlocks(host: Host, e: Entry)
    ensures !(Opens(host, e) && Blocks(host, e))
  {
  }

  // ---- Runs ----

  datatype Request = Add(rule: Rule) | Remove(rule: Rule) | Change(existing: Rule, next: Rule)

  function Serve(host: Host, chain: Chain, q: Request): Chain {
    match q
    case Add(r) => ApplyRule(host, chain, r).chain
    case Remove(r) => DeleteRule(host, chain, r).chain
    case Change(existing, next) => ReplaceRule(host, chain, existing, next).chain
  }

  /** What a caller can check before a request. */
  predicate Loses(host: Host, seen: Host, chain: Chain, q: Request) {
    match q
    case Add(r) => Appends(host, r) && Blocks(seen, EntryOf(r))
    case Remove(r) => !AllowsSsh(host, r) && OnlyOpening(seen, chain, EntryOf(r))
    case Change(existing, next) =>
      SwapLoses(host, seen, chain, existing, next) || DropLoses(host, seen, chain, existing, next)
  }

  predicate NeverLoses(host: Host, seen: Host, chain: Chain, qs: seq<Request>)
    decreases qs
  {
    qs == [] || (!Loses(host, seen, chain, qs[0]) && NeverLoses(host, seen, Serve(host, chain, qs[0]), qs[1..]))
  }

  predicate AlwaysSafe(host: Host, seen: Host, chain: Chain, qs: seq<Request>)
    decreases qs
  {
    Safe(seen, chain) && (qs == [] || AlwaysSafe(host, seen, Serve(host, chain, qs[0]), qs[1..]))
  }

  /** Over every run SSH stays open after every request exactly when no request loses it at its turn. */
  lemma {:induction false} RunSafeIff(host: Host, seen: Host, chain: Chain, qs: seq<Request>)
    requires Safe(seen, chain)
    ensures AlwaysSafe(host, seen, chain, qs) <==> NeverLoses(host, seen, chain, qs)
    decreases qs
  {
    hide Safe, ApplyRule, DeleteRule, ReplaceRule, SwapLoses, DropLoses, Appends, Blocks, OnlyOpening, AllowsSsh, EntryOf;
    if qs != [] {
      ServeSafeIff(host, seen, chain, qs[0]);
      if !Loses(host, seen, chain, qs[0]) {
        RunSafeIff(host, seen, Serve(host, chain, qs[0]), qs[1..]);
      } else {
        assert !AlwaysSafe(host, seen, Serve(host, chain, qs[0]), qs[1..]);
      }
    }
  }

  lemma ServeSafeIff(host: Host, seen: Host, chain: Chain, q: Request)
    requires Safe(seen, chain)
    ensures Safe(seen, Serve(host, chain, q)) <==> !Loses(host, seen, chain, q)
  {
    hide Safe, ApplyRule, DeleteRule, ReplaceRule, SwapLoses, DropLoses, Appends, Blocks, OnlyOpening, AllowsSsh, EntryOf;
    match q
    case Add(r) => ApplySafeIff(host, seen, chain, r);
    case Remove(r) => DeleteRuleSafeIff(host, seen, chain, r);
    case Change(existing, next) => ReplaceSafeIff(host, seen, chain, existing, next);
  }

  // ---- What the guard knows ----

  predicate AllowOrDeny(r: Rule) {
    EqualFold(r.action, "allow") || EqualFold(r.action, "deny")
  }

  /** The guard's view of a rule, enabled or not. */
  predicate GuardMatches(host: Host, r: Rule) {
    UsesSshPort(host, r.(enabled := true)) && SourceAllows(host, r.source)
  }

  /** The guard and iptables read the port of the rule alike, and its source. */
  predicate ReadAlike(host: Host, r: Rule) {
    PortReadAlike(host, TrimSpace(r.port)) && SourceReadAlike(host, Source(r.source))
  }

  predicate PortReadAlike(host: Host, spec: string) {
    spec == "" || spec == "any" ||
    forall port | port in host.sshPorts :: host.matchesDport(spec, port) <==> PortSpecIncludes(spec, port)
  }

  predicate SourceReadAlike(host: Host, source: string) {
    source == ANYWHERE || (host.matchesSource(source) <==> source == "::/0" || host.covers(source))
  }

  /** A request whose rules are allow or deny rules that both read alike, and whose old rule is enabled
      or does not open SSH. */
  predicate Ordinary(host: Host, q: Request) {
    match q
    case Add(r) => AllowOrDeny(r) && ReadAlike(host, r)
    case Remove(r) => Guarded(host, r)
    case Change(existing, next) => Guarded(host, existing) && AllowOrDeny(next) && ReadAlike(host, next)
  }

  predicate Guarded(host: Host, r: Rule) {
    AllowOrDeny(r) && ReadAlike(host, r) && (r.enabled || !Opens(host, EntryOf(r)))
  }

  /** A rule that both read alike: its entry matches SSH exactly when the guard says so. */
  lemma EntryMeansRule(host: Host, r: Rule)
    requires host.sshPorts != {} && ReadAlike(host, r)
    ensures MatchesSsh(host, EntryOf(r)) <==> GuardMatches(host, r)
  {
    hide Protocol, Source, TrimSpace, ToLower, PortSpecIncludes;
    AnyPort(host, r.port);
  }

  lemma AnyPort(host: Host, port: string)
    requires host.sshPorts != {}
    ensures TrimSpace(port) == "" || TrimSpace(port) == "any" ==>
              exists p | p in host.sshPorts :: PortSpecIncludes(TrimSpace(port), p)
  {
    hide TrimSpace, RangeIncludes;
    var p :| p in host.sshPorts;
    if TrimSpace(port) == "" || TrimSpace(port) == "any" {
      TrimmedWord(TrimSpace(port));
      assert ToLower("") == "" && ToLower("any") == "any";
      assert PortSpecIncludes(TrimSpace(port), p);
    }
  }

  lemma RuleEntry(host: Host, r: Rule)
    requires host.sshPorts != {} && AllowOrDeny(r) && ReadAlike(host, r)
    ensures r.enabled ==> (Opens(host, EntryOf(r)) <==> AllowsSsh(host, r))
    ensures r.enabled ==> (Blocks(host, EntryOf(r)) <==> DeniesSsh(host, r))
    ensures !r.enabled ==> !AllowsSsh(host, r) && !DeniesSsh(host, r) && !AllowsSshTrimmed(host, r)
  {
    hide Protocol, Source, TrimSpace, ToLower, PortSpecIncludes, MatchesSsh, SourceAllows, EqualFold, ReadAlike;
    EntryMeansRule(host, r);
    AllowIsNotDeny(r.action);
  }

  /** An ordinary request never loses SSH. */
  lemma OrdinaryIsHarmless(host: Host, chain: Chain, q: Request)
    requires host.sshPorts != {} && Safe(host, chain) && Ordinary(host, q)
    ensures !Loses(host, host, chain, q)
  {
    hide Validates, DeniesSsh, AllowsSsh, EntryOf, SameHostEffect, AllowsSshTrimmed, Safe, Opens, Blocks, ReadAlike, AllowOrDeny;
    match q
    case Add(r) => RuleEntry(host, r);
    case Remove(r) => RuleEntry(host, r);
    case Change(existing, next) =>
      RuleEntry(host, existing);
      RuleEntry(host, next);
      if Swaps(host, existing, next) {
        SwapKeeps(host, chain, existing, next);
      }
  }

  /** The order "apply the new rule, then delete the old one" never leaves SSH without a rule. */
  lemma SwapKeeps(host: Host, chain: Chain, existing: Rule, next: Rule)
    requires host.sshPorts != {} && Safe(host, chain) && Swaps(host, existing, next)
    requires ReadAlike(host, next)
    ensures !OnlyOpening(host, chain + [EntryOf(next)], EntryOf(existing))
  {
    hide Validates, DeniesSsh, AllowsSsh, SameHostEffect, AllowsSshTrimmed, ReadAlike, MatchesSsh, EntryOf, FirstIndex, Opens;
    NextOpens(host, next);
    var longer := chain + [EntryOf(next)];
    var i :| 0 <= i < |chain| && Opens(host, chain[i]);
    assert longer[i] == chain[i] && longer[|chain|] == EntryOf(next);
  }

  lemma NextOpens(host: Host, next: Rule)
    requires host.sshPorts != {} && AllowsSshTrimmed(host, next) && ReadAlike(host, next)
    ensures Opens(host, EntryOf(next))
  {
    hide ReadAlike, MatchesSsh, EntryOf, Protocol, Source, PortSpecIncludes, TrimSpace, EqualFold;
    TrimmedAllowAccepts(host, next);
    EntryMeansRule(host, next);
    assert next.(enabled := true) == next;
  }

  /** SSH is never lost: whatever ordinary requests one operator makes, in any order, and whichever of
      the iptables calls fail. */
  lemma {:induction false} SshIsNeverLost(host: Host, chain: Chain, qs: seq<Request>)
    requires host.sshPorts != {} && Safe(host, chain)
    requires forall i | 0 <= i < |qs| :: Ordinary(host, qs[i])
    ensures AlwaysSafe(host, host, chain, qs)
    decreases qs
  {
    hide Safe, Ordinary, Serve, Loses;
    if qs != [] {
      OrdinaryIsHarmless(host, chain, qs[0]);
      ServeSafeIff(host, host, chain, qs[0]);
      SshIsNeverLost(host, Serve(host, chain, qs[0]), qs[1..]);
    }
  }

  // ---- Which rules the guard overlooks ----

  /** A deny rule that is let through blocks SSH exactly when iptables matches what the guard does not. */
  lemma DenyBlocksSshIff(host: Host, chain: Chain, r: Rule)
    requires Safe(host, chain) && EqualFold(r.action, "deny")
    ensures !Safe(host, ApplyRule(host, chain, r).chain) <==>
            && r.enabled && Validates(host, r) && host.takes(EntryOf(r))
            && MatchesSsh(host, EntryOf(r)) && !GuardMatches(host, r)
  {
    hide Safe, Validates, MatchesSsh, Protocol, Source, EqualFold, TrimSpace, SourceAllows, PortSpecIncludes;
    ApplySafeIff(host, host, chain, r);
    assert r.enabled ==> r.(enabled := true) == r;
  }

  /** A deletion loses SSH exactly when the rule is disabled, or opens SSH unknown to the guard, and its
      rendering is the only entry that accepts SSH. */
  lemma DeleteLosesSshIff(host: Host, chain: Chain, r: Rule)
    requires Safe(host, chain) && AllowOrDeny(r)
    ensures !Safe(host, DeleteRule(host, chain, r).chain) <==>
            (!r.enabled || !GuardMatches(host, r)) && OnlyOpening(host, chain, EntryOf(r))
  {
    hide Safe, MatchesSsh, Protocol, Source, EqualFold, TrimSpace, SourceAllows, PortSpecIncludes, FirstIndex;
    DeleteRuleSafeIff(host, host, chain, r);
    assert r.enabled ==> r.(enabled := true) == r;
  }

  /** Replacing a disabled rule: it loses SSH exactly when the old rule's rendering is the only entry that
      accepts SSH, and the new one is not added or does not open SSH, or when the new rule, added, blocks it. */
  lemma ReplaceDisabledLosesSshIff(host: Host, chain: Chain, existing: Rule, next: Rule)
    requires Safe(host, chain) && !existing.enabled
    ensures !Safe(host, ReplaceRule(host, chain, existing, next).chain) <==>
            && Validates(host, next) && !DeniesSsh(host, next) && EntryOf(existing) in chain
            && (|| (Appends(host, next) && Blocks(host, EntryOf(next)))
                || (OnlyOpening(host, chain, EntryOf(existing)) &&
                    !(Appends(host, next) && Opens(host, EntryOf(next)))))
  {
    hide Safe, Validates, DeniesSsh, EntryOf, Opens, Blocks, OnlyOpening;
    ReplaceSafeIff(host, host, chain, existing, next);
    assert !AllowsSsh(host, existing);
  }
}
