/** The panel's firewall rules on the iptables back end, and the operator's own SSH access. */
module Firewall {
  import opened Prelude
  import opened Numbers

  datatype Rule = Rule(name: string, protocol: string, port: string, source: string, action: string, enabled: bool)

  /** The host. `covers` and `parses` are the service's own reading of a source; `takes` says which
      entries iptables accepts, `matchesSource` and `matchesDport` what an accepted entry then matches:
      whether a source holds the operator's address, and whether a port specification holds a port. */
  datatype Host = Host(
    sshPorts: set<string>, covers: string -> bool, parses: string -> bool, takes: Entry -> bool,
    matchesSource: string -> bool, matchesDport: (string, string) -> bool)

  /** One rule of the INPUT chain. */
  datatype Entry = Entry(proto: Option<string>, source: string, dport: Option<string>, comment: string, accept: bool)

  type Chain = seq<Entry>

  const ANYWHERE := "0.0.0.0/0"

  // ---- Normalisers ----

  function Without(s: string, pattern: string): (r: string)
    requires pattern != ""
    decreases |s|
  {
    if s == "" then ""
    else if HasPrefix(s, pattern) then Without(s[|pattern|..], pattern)
    else [s[0]] + Without(s[1..], pattern)
  }

  function Protocol(value: string): string {
    var v := TrimSpace(Without(ToLower(TrimSpace(value)), "(v6)"));
    if v == "" then "tcp"
    else if v == "tcp" || v == "udp" || v == "icmp" || v == "any" then v
    else if HasPrefix(v, "tcp") then "tcp"
    else if HasPrefix(v, "udp") then "udp"
    else if HasPrefix(v, "icmp") then "icmp"
    else v
  }

  function Source(value: string): string {
    var v := TrimSpace(value);
    if ToLower(v) in {"", "0.0.0.0/0", "::/0", "anywhere", "anywhere (v6)", "any"} then ANYWHERE else v
  }

  function PortSpec(value: string): string {
    ToLower(TrimSpace(value))
  }

  /** The two halves of strings.SplitN(spec, sep, 2), when the separator is there. */
  function Halves(spec: string, sep: char): Option<(string, string)> {
    var i := IndexOf(spec, sep);
    if i == |spec| then None else Some((spec[..i], spec[i + 1..]))
  }

  function RangeIncludes(spec: string, sep: char, port: int): Option<bool> {
    var halves := Halves(spec, sep);
    if halves.None? then None
    else
      var a := ParseInt64(TrimSpace(halves.value.0));
      var b := ParseInt64(TrimSpace(halves.value.1));
      if a.None? || b.None? then None
      else
        var (low, high) := if a.value > b.value then (b.value, a.value) else (a.value, b.value);
        Some(low <= port <= high)
  }

  predicate PortSpecIncludes(spec: string, target: string) {
    var spec := PortSpec(spec);
    var target := TrimSpace(target);
    if spec == "" || spec == "any" || spec == target then true
    else
      var port := ParseInt64(target);
      if port.None? then false
      else
        var colon := RangeIncludes(spec, ':', port.value);
        if colon.Some? then colon.value
        else
          var dash := RangeIncludes(spec, '-', port.value);
          dash.Some? && dash.value
  }

  predicate SourceAllows(host: Host, source: string) {
    var s := Source(source);
    s == ANYWHERE || s == "::/0" || host.covers(s)
  }

  predicate UsesSshPort(host: Host, r: Rule) {
    && r.enabled
    && (Protocol(r.protocol) == "tcp" || Protocol(r.protocol) == "any")
    && exists port | port in host.sshPorts :: PortSpecIncludes(TrimSpace(r.port), port)
  }

  predicate AllowsSsh(host: Host, r: Rule) {
    UsesSshPort(host, r) && SourceAllows(host, r.source) && EqualFold(r.action, "allow")
  }

  predicate DeniesSsh(host: Host, r: Rule) {
    UsesSshPort(host, r) && SourceAllows(host, r.source) && EqualFold(r.action, "deny")
  }

  predicate AllowsSshTrimmed(host: Host, r: Rule) {
    EqualFold(TrimSpace(r.action), "allow") && UsesSshPort(host, r) && SourceAllows(host, r.source)
  }

  predicate SameHostEffect(a: Rule, b: Rule) {
    && a.enabled == b.enabled
    && Protocol(a.protocol) == Protocol(b.protocol)
    && Source(a.source) == Source(b.source)
    && PortSpec(a.port) == PortSpec(b.port)
    && EqualFold(TrimSpace(a.action), TrimSpace(b.action))
  }

  predicate Validates(host: Host, r: Rule) {
    && Protocol(r.protocol) in {"tcp", "udp", "icmp", "any"}
    && (TrimSpace(r.port) == "" || TrimSpace(r.port) == "any" || ',' !in TrimSpace(r.port))
    && (Source(r.source) == ANYWHERE || host.parses(Source(r.source)))
  }

  // ---- The chain ----

  function EntryOf(r: Rule): Entry {
    var port := TrimSpace(r.port);
    Entry(if Protocol(r.protocol) == "any" then None else Some(Protocol(r.protocol)),
          Source(r.source),
          if port == "" || port == "any" then None else Some(port),
          "deploycp:" + r.name,
          !EqualFold(r.action, "deny"))
  }

  /** iptablesArgs, after the operation and the chain name. */
  function Arguments(e: Entry): seq<string> {
    (if e.proto.Some? then ["-p", e.proto.value] else [])
    + ["-s", e.source]
    + (if e.dport.Some? then ["--dport", e.dport.value] else [])
    + ["-m", "comment", "--comment", e.comment, "-j", if e.accept then "ACCEPT" else "DROP"]
  }

  datatype Outcome = Outcome(chain: Chain, ok: bool)

  /** iptables -A. */
  function Append(host: Host, chain: Chain, e: Entry): Outcome {
    if host.takes(e) then Outcome(chain + [e], true) else Outcome(chain, false)
  }

  function FirstIndex(chain: Chain, e: Entry): (i: nat)
    ensures i <= |chain| && forall j | 0 <= j < i :: chain[j] != e
    ensures i < |chain| ==> chain[i] == e
  {
    if chain == [] || chain[0] == e then 0 else 1 + FirstIndex(chain[1..], e)
  }

  /** iptables -D: the first equal rule goes; an error if there is none. */
  function Delete(chain: Chain, e: Entry): Outcome {
    var i := FirstIndex(chain, e);
    if i == |chain| then Outcome(chain, false) else Outcome(chain[..i] + chain[i + 1..], true)
  }

  function ApplyRule(host: Host, chain: Chain, r: Rule): Outcome {
    if !Validates(host, r) then Outcome(chain, false)
    else if !r.enabled then Outcome(chain, true)
    else if DeniesSsh(host, r) then Outcome(chain, false)
    else Append(host, chain, EntryOf(r))
  }

  function DeleteRule(host: Host, chain: Chain, r: Rule): Outcome {
    if AllowsSsh(host, r) then Outcome(chain, false) else Delete(chain, EntryOf(r))
  }

  function ReplaceRule(host: Host, chain: Chain, existing: Rule, next: Rule): Outcome {
    if !Validates(host, next) then Outcome(chain, false)
    else if AllowsSsh(host, existing) then
      if SameHostEffect(existing, next) then Outcome(chain, true)
      else if !AllowsSshTrimmed(host, next) then Outcome(chain, false)
      else
        var applied := ApplyRule(host, chain, next);
        if !applied.ok then applied else Delete(applied.chain, EntryOf(existing))
    else if DeniesSsh(host, next) then Outcome(chain, false)
    else
      var deleted := DeleteRule(host, chain, existing);
      if !deleted.ok then deleted else ApplyRule(host, deleted.chain, next)
  }

  class FirewallService {
    const host: Host
    var chain: Chain

    constructor (host: Host, chain: Chain)
      ensures this.host == host && this.chain == chain
    {
      this.host := host;
      this.chain := chain;
    }

    /** iptables -A and -D as run by the service. */
    method Run(append: bool, e: Entry) returns (ok: bool)
      modifies this`chain
      ensures Outcome(chain, ok) == if append then Append(host, old(chain), e) else Delete(old(chain), e)
    {
      if append {
        if !host.takes(e) {
          return false;
        }
        chain := chain + [e];
        return true;
      }
      var i := 0;
      while i < |chain| && chain[i] != e
        invariant 0 <= i <= |chain| && chain == old(chain)
        invariant forall j | 0 <= j < i :: chain[j] != e
      {
        i := i + 1;
      }
      assert i == FirstIndex(chain, e);
      if i == |chain| {
        return false;
      }
      chain := chain[..i] + chain[i + 1..];
      return true;
    }

    method Apply(r: Rule) returns (ok: bool)
      modifies this`chain
      ensures Outcome(chain, ok) == ApplyRule(host, old(chain), r)
    {
      if !Validates(host, r) {
        return false;
      }
      if !r.enabled {
        return true;
      }
      if DeniesSsh(host, r) {
        return false;
      }
      ok := Run(true, EntryOf(r));
    }

    method DeleteOne(r: Rule) returns (ok: bool)
      modifies this`chain
      ensures Outcome(chain, ok) == DeleteRule(host, old(chain), r)
    {
      if AllowsSsh(host, r) {
        return false;
      }
      ok := Run(false, EntryOf(r));
    }

    method Replace(existing: Option<Rule>, next: Rule) returns (ok: bool)
      modifies this`chain
      ensures Outcome(chain, ok) ==
              if existing.None? then ApplyRule(host, old(chain), next)
              else ReplaceRule(host, old(chain), existing.value, next)
    {
      if existing.None? {
        ok := Apply(next);
        return;
      }
      if !Validates(host, next) {
        return false;
      }
      if AllowsSsh(host, existing.value) {
        if !SameHostEffect(existing.value, next) {
          if !AllowsSshTrimmed(host, next) {
            return false;
          }
          ok := Apply(next);
          if !ok {
            return false;
          }
          ok := Run(false, EntryOf(existing.value));
          return;
        }
        return true;
      }
      if DeniesSsh(host, next) {
        return false;
      }
      ok := DeleteOne(existing.value);
      if !ok {
        return false;
      }
      ok := Apply(next);
    }
  }

  // ---- The rendering ----

  /** Different entries render to different arguments, so "the first equal rendering" is "the first
      equal entry". */
  lemma RenderingIsInjective(a: Entry, b: Entry)
    ensures Arguments(a) == Arguments(b) ==> a == b
  {
    if Arguments(a) == Arguments(b) {
      SameHead(a, b);
      var k := if a.proto.Some? then 2 else 0;
      assert Arguments(a)[k + 1] == a.source && Arguments(b)[k + 1] == b.source;
      assert |Arguments(a)| == |Arguments(b)|;
      var m := k + 2 + if a.dport.Some? then 2 else 0;
      assert Arguments(a)[m + 3] == a.comment && Arguments(b)[m + 3] == b.comment;
      assert Arguments(a)[m + 5] == Arguments(b)[m + 5];
      assert "ACCEPT"[0] != "DROP"[0];
      if a.dport.Some? {
        assert Arguments(a)[k + 3] == a.dport.value && Arguments(b)[k + 3] == b.dport.value;
      }
      if a.proto.Some? {
        assert Arguments(a)[1] == a.proto.value && Arguments(b)[1] == b.proto.value;
      }
    }
  }

  lemma SameHead(a: Entry, b: Entry)
    requires Arguments(a) == Arguments(b)
    ensures a.proto.Some? <==> b.proto.Some?
    ensures a.dport.Some? <==> b.dport.Some?
  {
    assert Arguments(a)[0] == if a.proto.Some? then "-p" else "-s";
    assert Arguments(b)[0] == if b.proto.Some? then "-p" else "-s";
    assert "-p"[1] != "-s"[1];
    var k := if a.proto.Some? then 2 else 0;
    assert |Arguments(a)| == k + 8 + if a.dport.Some? then 2 else 0;
    assert |Arguments(b)| == k + 8 + if b.dport.Some? then 2 else 0;
  }
}
