/** The panel's rule table beside the host's chain: when every enabled row still has its entry there. */
module FirewallRows {
  import opened Prelude
  import opened Firewall
  import opened FirewallSsh
  import opened FirewallPorts

  datatype State = State(rows: seq<Rule>, chain: Chain)

  /** The entries that the enabled rows stand for. */
  function Rendered(r: Rule): multiset<Entry> {
    if r.enabled then multiset{EntryOf(r)} else multiset{}
  }

  function Renderings(rows: seq<Rule>): multiset<Entry> {
    if rows == [] then multiset{} else Rendered(rows[0]) + Renderings(rows[1..])
  }

  /** Every enabled row has an entry of its own in the chain. */
  predicate Backed(s: State) {
    Renderings(s.rows) <= multiset(s.chain)
  }

  datatype RowRequest = AddRow(rule: Rule) | DropRow(i: nat) | EditRow(i: nat, next: Rule)

  predicate Names(s: State, q: RowRequest) {
    !q.AddRow? ==> q.i < |s.rows|
  }

  /** The settings page: the service first, and the table only if the service reports no error. */
  function ServeRow(host: Host, s: State, q: RowRequest): State
    requires Names(s, q)
  {
    match q
    case AddRow(r) =>
      var done := ApplyRule(host, s.chain, r);
      State(if done.ok then s.rows + [r] else s.rows, done.chain)
    case DropRow(i) =>
      var done := DeleteRule(host, s.chain, s.rows[i]);
      State(if done.ok then s.rows[..i] + s.rows[i + 1..] else s.rows, done.chain)
    case EditRow(i, next) =>
      var done := ReplaceRule(host, s.chain, s.rows[i], next);
      State(if done.ok then s.rows[i := next] else s.rows, done.chain)
  }

  // ---- Counting ----

  lemma {:induction false} RenderingsConcat(a: seq<Rule>, b: seq<Rule>)
    ensures Renderings(a + b) == Renderings(a) + Renderings(b)
    decreases a
  {
    hide Rendered;
    if a == [] {
      assert a + b == b;
    } else {
      assert (a + b)[1..] == a[1..] + b;
      RenderingsConcat(a[1..], b);
    }
  }

  lemma RenderingsOne(r: Rule)
    ensures Renderings([r]) == Rendered(r)
  {
    hide Rendered;
    assert [r][1..] == [];
  }

  lemma RenderingsAt(rows: seq<Rule>, i: nat, next: Rule)
    requires i < |rows|
    ensures var others := Renderings(rows[..i]) + Renderings(rows[i + 1..]);
            && Renderings(rows) == others + Rendered(rows[i])
            && Renderings(rows[..i] + rows[i + 1..]) == others
            && Renderings(rows[i := next]) == others + Rendered(next)
  {
    hide Rendered, Renderings;
    var a, b := rows[..i], rows[i + 1..];
    assert rows == a + ([rows[i]] + b) && rows[i := next] == a + ([next] + b);
    RenderingsConcat(a, [rows[i]] + b);
    RenderingsConcat(a, [next] + b);
    RenderingsConcat([rows[i]], b);
    RenderingsConcat([next], b);
    RenderingsConcat(a, b);
    RenderingsOne(rows[i]);
    RenderingsOne(next);
  }

  lemma DeleteCounts(chain: Chain, e: Entry)
    ensures Delete(chain, e).ok <==> e in chain
    ensures e in chain ==> multiset(Delete(chain, e).chain) == multiset(chain) - multiset{e}
    ensures e !in chain ==> Delete(chain, e).chain == chain
  {
    var i := FirstIndex(chain, e);
    if i < |chain| {
      assert chain == chain[..i] + [e] + chain[i + 1..];
    }
  }

  lemma ApplyCounts(host: Host, chain: Chain, r: Rule)
    ensures var done := ApplyRule(host, chain, r);
            multiset(done.chain) == multiset(chain) + if done.ok then Rendered(r) else multiset{}
  {
    hide Validates, DeniesSsh, EntryOf;
  }

  // ---- When a row loses its entry ----

  /** The chain has no more entries of this kind than the rows need. */
  predicate Tight(s: State, e: Entry) {
    Renderings(s.rows)[e] == multiset(s.chain)[e]
  }

  /** What a caller can check before a request. */
  predicate Unbacks(host: Host, s: State, q: RowRequest)
    requires Names(s, q)
  {
    match q
    case AddRow(_) => false
    case DropRow(i) =>
      var r := s.rows[i];
      !r.enabled && !AllowsSsh(host, r) && EntryOf(r) in s.chain && Tight(s, EntryOf(r))
    case EditRow(i, next) => EditUnbacks(host, s, s.rows[i], next)
  }

  predicate EditUnbacks(host: Host, s: State, existing: Rule, next: Rule) {
    var e, n := EntryOf(existing), EntryOf(next);
    if AllowsSsh(host, existing) then
      Validates(host, next) && SameHostEffect(existing, next) && n != e && Tight(s, n)
    else
      && DropsFirst(host, existing, next) && e in s.chain && Tight(s, e)
      && (!existing.enabled || (next.enabled && !host.takes(n)))
  }

  /** A request leaves some enabled row without its entry exactly when it edits a guarded row into one of the
      same effect but another rendering, or deletes the entry of a disabled row's enabled twin, or deletes an
      entry and then fails to add the new one; each time with no entry to spare. */
  lemma BackedIff(host: Host, s: State, q: RowRequest)
    requires Backed(s) && Names(s, q)
    ensures Backed(ServeRow(host, s, q)) <==> !Unbacks(host, s, q)
  {
    hide ApplyRule, DeleteRule, ReplaceRule, Renderings, Rendered, EditUnbacks, EntryOf, AllowsSsh;
    match q
    case AddRow(r) =>
      ApplyCounts(host, s.chain, r);
      RenderingsConcat(s.rows, [r]);
      RenderingsOne(r);
    case DropRow(i) => DropBackedIff(host, s, i);
    case EditRow(i, next) => EditBackedIff(host, s, i, next);
  }

  lemma DropBackedIff(host: Host, s: State, i: nat)
    requires Backed(s) && i < |s.rows|
    ensures Backed(ServeRow(host, s, DropRow(i))) <==> !Unbacks(host, s, DropRow(i))
  {
    hide Renderings, EntryOf, AllowsSsh, Delete;
    var r := s.rows[i];
    var e := EntryOf(r);
    RenderingsAt(s.rows, i, r);
    DeleteCounts(s.chain, e);
    if !AllowsSsh(host, r) && e in s.chain {
      var c, c' := multiset(s.chain), multiset(s.chain) - multiset{e};
      var rest := Renderings(s.rows[..i] + s.rows[i + 1..]);
      LessOne(Renderings(s.rows), rest, Rendered(r), c, e);
    }
  }

  /** Taking one `e` from both sides, or from the larger only. */
  lemma LessOne(all: multiset<Entry>, rest: multiset<Entry>, own: multiset<Entry>, c: multiset<Entry>, e: Entry)
    requires all == rest + own && all <= c && e in c && (own == multiset{} || own == multiset{e})
    ensures rest <= c - multiset{e} <==> !(own == multiset{} && all[e] == c[e])
  {
    var less := c - multiset{e};
    assert own == multiset{e} ==> rest[e] + 1 == all[e];
    assert forall x | x != e :: less[x] == c[x] && rest[x] == all[x];
    if rest[e] <= less[e] {
      forall x ensures rest[x] <= less[x] {
        if x != e { assert rest[x] == all[x]; }
      }
    }
  }

  lemma EditBackedIff(host: Host, s: State, i: nat, next: Rule)
    requires Backed(s) && i < |s.rows|
    ensures Backed(ServeRow(host, s, EditRow(i, next))) <==> !EditUnbacks(host, s, s.rows[i], next)
  {
    hide Renderings, Rendered, EntryOf, AllowsSsh, Validates, DeniesSsh, SameHostEffect, AllowsSshTrimmed, ReplaceRule,
      EditUnbacks;
    if AllowsSsh(host, s.rows[i]) {
      GuardedEditBackedIff(host, s, i, next);
    } else {
      OtherEditBackedIff(host, s, i, next);
    }
  }

  lemma GuardedEditBackedIff(host: Host, s: State, i: nat, next: Rule)
    requires Backed(s) && i < |s.rows| && AllowsSsh(host, s.rows[i])
    ensures Backed(ServeRow(host, s, EditRow(i, next))) <==> !EditUnbacks(host, s, s.rows[i], next)
  {
    hide Renderings, EntryOf, Validates, DeniesSsh, AllowsSshTrimmed, Delete, ApplyRule, Source, Protocol,
      PortSpec, PortSpecIncludes, TrimSpace, EqualFold, SourceAllows;
    var existing := s.rows[i];
    var e, n := EntryOf(existing), EntryOf(next);
    RenderingsAt(s.rows, i, next);
    var others := Renderings(s.rows[..i]) + Renderings(s.rows[i + 1..]);
    var c := multiset(s.chain);
    assert existing.enabled && Rendered(existing) == multiset{e};
    if Validates(host, next) {
      if SameHostEffect(existing, next) {
        assert Rendered(next) == multiset{n};
        SwapOne(others, c, e, n);
      } else if AllowsSshTrimmed(host, next) {
        ApplyCounts(host, s.chain, next);
        var applied := ApplyRule(host, s.chain, next);
        if applied.ok {
          DeleteCounts(applied.chain, e);
          assert e in c && e in applied.chain by { assert e in others + multiset{e}; assert e in multiset(applied.chain); }
          BothSwapped(others, c, e, Rendered(next));
        }
      }
    }
  }

  lemma SwapOne(others: multiset<Entry>, c: multiset<Entry>, e: Entry, n: Entry)
    requires others + multiset{e} <= c
    ensures others + multiset{n} <= c <==> !(n != e && (others + multiset{e})[n] == c[n])
  {
    var before, after := others + multiset{e}, others + multiset{n};
    assert n != e ==> after[n] == before[n] + 1;
    if after[n] <= c[n] {
      forall x ensures after[x] <= c[x] {
        if x != n { assert after[x] <= before[x]; }
      }
    }
  }

  lemma BothSwapped(others: multiset<Entry>, c: multiset<Entry>, e: Entry, added: multiset<Entry>)
    requires others + multiset{e} <= c
    ensures others + added <= c + added - multiset{e}
  {
    var after := c + added - multiset{e};
    forall x ensures (others + added)[x] <= after[x] {
      assert (others + multiset{e})[x] <= c[x];
    }
  }

  lemma OtherEditBackedIff(host: Host, s: State, i: nat, next: Rule)
    requires Backed(s) && i < |s.rows| && !AllowsSsh(host, s.rows[i])
    ensures Backed(ServeRow(host, s, EditRow(i, next))) <==> !EditUnbacks(host, s, s.rows[i], next)
  {
    hide Renderings, Rendered, EntryOf, DropsFirst, AllowsSsh, Delete, ServeRow, ApplyRule;
    var existing := s.rows[i];
    var e := EntryOf(existing);
    EditOutcome(host, s, i, next);
    if DropsFirst(host, existing, next) && e in s.chain {
      var others := Renderings(s.rows[..i]) + Renderings(s.rows[i + 1..]);
      var c := multiset(s.chain);
      var deleted := Delete(s.chain, e).chain;
      RenderingsAt(s.rows, i, next);
      DeleteCounts(s.chain, e);
      ApplyCounts(host, deleted, next);
      OneOrNone(existing);
      LessOne(Renderings(s.rows), others, Rendered(existing), c, e);
      LessOne(Renderings(s.rows), Renderings(s.rows), multiset{}, c, e);
      SameAdded(others, c - multiset{e}, Rendered(next));
    }
  }

  lemma OneOrNone(r: Rule)
    ensures Rendered(r) == (if r.enabled then multiset{EntryOf(r)} else multiset{})
    ensures r.enabled ==> Rendered(r) != multiset{}
  {
    assert r.enabled ==> EntryOf(r) in Rendered(r);
  }

  lemma EditOutcome(host: Host, s: State, i: nat, next: Rule)
    requires i < |s.rows| && !AllowsSsh(host, s.rows[i])
    ensures var existing := s.rows[i];
            var e := EntryOf(existing);
            var applied := ApplyRule(host, Delete(s.chain, e).chain, next);
            if DropsFirst(host, existing, next) && e in s.chain then
              && ServeRow(host, s, EditRow(i, next)) ==
                 State(if applied.ok then s.rows[i := next] else s.rows, applied.chain)
              && (applied.ok <==> !(next.enabled && !host.takes(EntryOf(next))))
            else ServeRow(host, s, EditRow(i, next)) == s
  {
    hide EntryOf, Validates, DeniesSsh, AllowsSsh, Delete, SameHostEffect, AllowsSshTrimmed, FirstIndex;
    var e := EntryOf(s.rows[i]);
    DeleteCounts(s.chain, e);
    assert s.rows[i := s.rows[i]] == s.rows;
    assert !DropsFirst(host, s.rows[i], next) ==> ReplaceRule(host, s.chain, s.rows[i], next) == Outcome(s.chain, false);
  }

  lemma SameAdded(a: multiset<Entry>, c: multiset<Entry>, added: multiset<Entry>)
    ensures a + added <= c + added <==> a <= c
  {
    if a + added <= c + added {
      forall x ensures a[x] <= c[x] {
        assert (a + added)[x] <= (c + added)[x];
      }
    }
  }

  // ---- The request that breaks it ----

  /** Renaming the SSH rule is an edit of the same effect: the chain keeps the entry under the old name,
      and the entry of the renamed row can no longer be deleted. */
  lemma RenamedRuleIsUnbacked(host: Host)
    requires host.sshPorts != {}
    ensures var s := State([SSH_RULE], [EntryOf(SSH_RULE)]);
            var renamed := SSH_RULE.(name := "operator");
            var after := ServeRow(host, s, EditRow(0, renamed));
            && Backed(s)
            && after == State([renamed], s.chain) && !Backed(after)
            && !Delete(after.chain, EntryOf(renamed)).ok
  {
    hide TrimSpace, Protocol, Source, EqualFold, PortSpecIncludes, Renderings, Delete, AllowsSsh;
    var renamed := SSH_RULE.(name := "operator");
    var s := State([SSH_RULE], [EntryOf(SSH_RULE)]);
    SshRuleOpens(host);
    SshRuleIsGuarded(host);
    TcpFromAnywhere();
    TrimmedWord("any");
    AllowedWord();
    RenderingsOne(SSH_RULE);
    RenderingsOne(renamed);
    assert SameHostEffect(SSH_RULE, renamed) && Validates(host, renamed);
    assert EntryOf(renamed) != EntryOf(SSH_RULE) by {
      assert EntryOf(renamed).comment[9] == 'o' && EntryOf(SSH_RULE).comment[9] == 's';
    }
    assert [SSH_RULE][0 := renamed] == [renamed];
    assert EntryOf(renamed) in Renderings([renamed]) && EntryOf(renamed) !in multiset(s.chain);
    DeleteCounts(s.chain, EntryOf(renamed));
  }

  lemma SshRuleIsGuarded(host: Host)
    requires host.sshPorts != {}
    ensures AllowsSsh(host, SSH_RULE)
  {
    hide *;
    SshRuleOpens(host);
    SshRuleReadAlike(host);
    RuleEntry(host, SSH_RULE);
    SshRuleIsOn();
  }

  lemma SshRuleIsOn()
    ensures SSH_RULE.enabled
  {
  }

  lemma SshRuleReadAlike(host: Host)
    ensures AllowOrDeny(SSH_RULE) && ReadAlike(host, SSH_RULE)
  {
    hide TrimSpace, ToLower, EqualFold, PortSpecIncludes, Source;
    TcpFromAnywhere();
    TrimmedWord("any");
    AllowedWord();
  }
}
