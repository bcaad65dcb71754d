/** Application port bindings: which platform rows are apps, and which host and port each listens on. */
module PortBindings {
  import opened Prelude

  /** A row of the platforms table; it is an app when its runtime is not empty. */
  datatype Row = Row(id: nat, runtime: string, host: string, port: int)

  datatype Table = Table(rows: seq<Row>, nextId: nat)

  function NormalizeHost(host: string): string {
    var h := TrimSpace(ToLower(host));
    if h == "" || h == "localhost" then "127.0.0.1" else h
  }

  predicate IsWildcard(host: string) {
    NormalizeHost(host) == "0.0.0.0" || NormalizeHost(host) == "::"
  }

  predicate Conflict(hostA: string, portA: int, hostB: string, portB: int) {
    portA == portB &&
    (NormalizeHost(hostA) == NormalizeHost(hostB)
     || IsWildcard(NormalizeHost(hostA)) || IsWildcard(NormalizeHost(hostB)))
  }

  predicate IsApp(r: Row) {
    r.runtime != ""
  }

  /** The row is in the way of a new binding. */
  predicate InTheWay(r: Row, host: string, port: int, exclude: nat) {
    IsApp(r) && !(exclude != 0 && r.id == exclude) && Conflict(r.host, r.port, NormalizeHost(host), port)
  }

  /** ensurePortAvailable, up to the live probe. */
  predicate Available(rows: seq<Row>, host: string, port: int, exclude: nat) {
    1 <= port <= 65535 && forall i | 0 <= i < |rows| :: !InTheWay(rows[i], host, port, exclude)
  }

  function Find(rows: seq<Row>, id: nat): Option<Row> {
    if rows == [] then None
    else if rows[0].id == id && IsApp(rows[0]) then Some(rows[0])
    else Find(rows[1..], id)
  }

  /** An UPDATE of the row with this id, and of apps only when `appsOnly`. */
  function Set(rows: seq<Row>, id: nat, appsOnly: bool, runtime: string, host: string, port: int): (rows': seq<Row>)
    ensures |rows'| == |rows|
    ensures forall i | 0 <= i < |rows| ::
              rows'[i] == if rows[i].id == id && (appsOnly ==> IsApp(rows[i])) then Row(id, runtime, host, port) else rows[i]
  {
    seq(|rows|, i requires 0 <= i < |rows| =>
      if rows[i].id == id && (appsOnly ==> IsApp(rows[i])) then Row(id, runtime, host, port) else rows[i])
  }

  function Runtime(runtime: string): string {
    if TrimSpace(runtime) == "" then "go" else runtime
  }

  /** GoAppRepository.ClearRuntime. */
  function Clear(t: Table, id: nat): Table {
    t.(rows := Set(t.rows, id, false, "", "", 0))
  }

  /** AppService.Create on a new row or on the row of an existing site. `free` is the live probe,
      `started` whether the steps after the insert succeed; if not, the runtime is cleared again. */
  function Create(t: Table, site: nat, runtime: string, host: string, port: int, free: bool, started: bool): Table {
    if !Available(t.rows, host, port, 0) || !free then t
    else
      var created :=
        if site > 0 then t.(rows := Set(t.rows, site, false, Runtime(runtime), host, port))
        else Table(t.rows + [Row(t.nextId, Runtime(runtime), host, port)], t.nextId + 1);
      if started then created else Clear(created, if site > 0 then site else t.nextId)
  }

  /** AppService.Update. */
  function Update(t: Table, id: nat, runtime: string, host: string, port: int, free: bool): Table {
    if Find(t.rows, id).None? || !Available(t.rows, host, port, id) || !free then t
    else t.(rows := Set(t.rows, id, true, Runtime(runtime), host, port))
  }

  /** AppService.UpdateRuntimeSettings. */
  function UpdateRuntime(t: Table, id: nat, port: int, free: bool): Table {
    var app := Find(t.rows, id);
    if app.None? then t
    else
      var host := if TrimSpace(app.value.host) == "" then "127.0.0.1" else app.value.host;
      var p := if port > 0 then port else app.value.port;
      if !Available(t.rows, host, p, id) || !free then t
      else t.(rows := Set(t.rows, id, true, app.value.runtime, host, p))
  }

  function WithoutId(rows: seq<Row>, id: nat): seq<Row> {
    if rows == [] then []
    else if rows[0].id == id then WithoutId(rows[1..], id)
    else [rows[0]] + WithoutId(rows[1..], id)
  }

  class AppRegistry {
    var rows: seq<Row>
    var nextId: nat

    constructor ()
      ensures Contents() == Table([], 1)
    {
      rows, nextId := [], 1;
    }

    ghost function Contents(): Table
      reads this
    {
      Table(rows, nextId)
    }

    method EnsurePortAvailable(host: string, port: int, excludeId: nat) returns (ok: bool)
      ensures ok == Available(rows, host, port, excludeId)
    {
      hide NormalizeHost, IsWildcard;
      var h := NormalizeHost(host);
      if port < 1 || port > 65535 {
        return false;
      }
      for i := 0 to |rows|
        invariant forall j | 0 <= j < i :: !InTheWay(rows[j], host, port, excludeId)
      {
        var item := rows[i];
        if !IsApp(item) {
          continue;
        }
        if excludeId != 0 && item.id == excludeId {
          continue;
        }
        if item.port != port {
          continue;
        }
        if Conflict(item.host, item.port, h, port) {
          return false;
        }
      }
      return true;
    }

    method ClearRuntime(id: nat)
      modifies this
      ensures Contents() == Clear(old(Contents()), id)
      // The row stays, but it is no app any more; no other row changes.
      ensures |rows| == |old(rows)| && nextId == old(nextId)
      ensures forall i | 0 <= i < |rows| :: rows[i].id == old(rows)[i].id
      ensures forall i | 0 <= i < |rows| :: if rows[i].id == id then !IsApp(rows[i]) else rows[i] == old(rows)[i]
    {
      rows := Set(rows, id, false, "", "", 0);
    }

    method CreateApp(site: nat, runtime: string, host: string, port: int, free: bool, started: bool)
      modifies this
      ensures Contents() == Create(old(Contents()), site, runtime, host, port, free, started)
    {
      hide Available, Runtime;
      var ok := EnsurePortAvailable(host, port, 0);
      if !ok || !free {
        return;
      }
      var target := site;
      if site > 0 {
        rows := Set(rows, site, false, Runtime(runtime), host, port);
      } else {
        rows := rows + [Row(nextId, Runtime(runtime), host, port)];
        target := nextId;
        nextId := nextId + 1;
      }
      if !started {
        ClearRuntime(target);
      }
    }

    method UpdateApp(id: nat, runtime: string, host: string, port: int, free: bool)
      modifies this
      ensures Contents() == Update(old(Contents()), id, runtime, host, port, free)
    {
      if Find(rows, id).None? {
        return;
      }
      var ok := EnsurePortAvailable(host, port, id);
      if !ok || !free {
        return;
      }
      rows := Set(rows, id, true, Runtime(runtime), host, port);
    }

    method UpdateRuntimeSettings(id: nat, port: int, free: bool)
      modifies this
      ensures Contents() == UpdateRuntime(old(Contents()), id, port, free)
    {
      var app := Find(rows, id);
      if app.None? {
        return;
      }
      var host, p := app.value.host, app.value.port;
      if TrimSpace(host) == "" {
        host := "127.0.0.1";
      }
      if port > 0 {
        p := port;
      }
      var ok := EnsurePortAvailable(host, p, id);
      if !ok || !free {
        return;
      }
      rows := Set(rows, id, true, app.value.runtime, host, p);
    }
  }

  // ---- What a conflict is ----

  /** A binding listens on an address: on every one when its host is a wildcard, on the loopback when it has
      no host or names it, and else on the address it gives, up to case and surrounding white space. */
  predicate Listens(host: string, address: string) {
    var h := TrimSpace(ToLower(host));
    if h == "0.0.0.0" || h == "::" then true
    else if h == "" || h == "localhost" then address == "127.0.0.1"
    else address == h
  }

  /** The two hosts share an address. */
  ghost predicate Shared(hostA: string, hostB: string) {
    exists address :: Listens(hostA, address) && Listens(hostB, address)
  }

  lemma ListensIff(host: string, address: string)
    ensures Listens(host, address) <==> IsWildcard(host) || NormalizeHost(host) == address
  {
    hide TrimSpace, ToLower;
    assert |"::"| == 2 && |"127.0.0.1"| == 9 && |"0.0.0.0"| == 7;
  }

  lemma LowerLowered(s: string)
    ensures ToLower(ToLower(s)) == ToLower(s)
  {
    assert forall i | 0 <= i < |s| :: LowerChar(LowerChar(s[i])) == LowerChar(s[i]);
  }

  lemma NormalizeTwice(host: string)
    ensures NormalizeHost(NormalizeHost(host)) == NormalizeHost(host)
  {
    hide TrimSpace, ToLower;
    var h := TrimSpace(ToLower(host));
    TrimOfLower(ToLower(host));
    LowerLowered(host);
    TrimTrimmed(ToLower(host));
    LoopbackNormal();
  }

  lemma LoopbackNormal()
    ensures NormalizeHost("127.0.0.1") == "127.0.0.1"
  {
    hide TrimSpace;
    TrimmedWord("127.0.0.1");
    assert ToLower("127.0.0.1") == "127.0.0.1";
  }

  /** Trimming keeps a text in lower case. */
  lemma TrimOfLower(s: string)
    requires ToLower(s) == s
    ensures ToLower(TrimSpace(s)) == TrimSpace(s)
  {
    hide LowerChar, TrimLeft, TrimRight;
    var l := TrimLeft(s, BLANK);
    var r := TrimRight(l, BLANK);
    var k := |s| - |l|;
    assert forall i | 0 <= i < |s| :: LowerChar(s[i]) == s[i];
    assert forall i | 0 <= i < |l| :: l[i] == s[k..][i] == s[k + i];
    assert ToLower(r) == r;
  }

  /** Two bindings conflict exactly when some address and port would be listened on twice. */
  lemma ConflictIffShared(hostA: string, portA: int, hostB: string, portB: int)
    ensures Conflict(hostA, portA, hostB, portB) <==>
            portA == portB && Shared(hostA, hostB)
    ensures Conflict(hostA, portA, hostB, portB) == Conflict(hostB, portB, hostA, portA)
    ensures Conflict(NormalizeHost(hostA), portA, hostB, portB) == Conflict(hostA, portA, hostB, portB)
  {
    hide NormalizeHost, Listens;
    NormalizeTwice(hostA);
    NormalizeTwice(hostB);
    forall host, address | host in [hostA, hostB]
      ensures Listens(host, address) <==> IsWildcard(host) || NormalizeHost(host) == address
    {
      ListensIff(host, address);
    }
    assert Listens(hostA, NormalizeHost(hostA)) && Listens(hostB, NormalizeHost(hostB));
  }

  /** The test that is made of a row: its binding as stored against the normalised host of the request. */
  lemma RowConflictIff(r: Row, host: string, port: int)
    ensures Conflict(r.host, r.port, NormalizeHost(host), port) <==> r.port == port && Shared(r.host, host)
    ensures Shared(r.host, host) == Shared(host, r.host)
  {
    hide Conflict, Shared, NormalizeHost;
    ConflictIffShared(host, port, r.host, r.port);
    ConflictIffShared(r.host, r.port, NormalizeHost(host), port);
    ConflictIffShared(r.host, 0, host, 0);
    ConflictIffShared(host, 0, r.host, 0);
  }

  /** Conflict is not transitive: a wildcard host conflicts with two hosts that do not conflict. */
  lemma ConflictNotTransitive()
    ensures Conflict("10.0.0.1", 80, "0.0.0.0", 80) && Conflict("0.0.0.0", 80, "10.0.0.2", 80)
    ensures !Conflict("10.0.0.1", 80, "10.0.0.2", 80)
  {
    hide TrimSpace, ToLower;
    PlainHost("10.0.0.1");
    PlainHost("10.0.0.2");
    PlainHost("0.0.0.0");
    assert "10.0.0.1"[7] != "10.0.0.2"[7];
    assert |"0.0.0.0"| == 7 && |"::"| == 2 && "0.0.0.0"[0] == '0';
  }

  lemma PlainHost(s: string)
    requires s != "" && forall i | 0 <= i < |s| :: '.' <= s[i] <= '9'
    ensures NormalizeHost(s) == s
  {
    assert ToLower(s) == s;
    TrimmedWord(s);
    assert s != "localhost" by { assert "localhost"[0] == 'l'; }
  }

  // ---- Every run ----

  /** No two apps have one port on a shared address. */
  ghost predicate NoConflicts(rows: seq<Row>) {
    forall i, j | 0 <= i < |rows| && 0 <= j < |rows| && i != j && rows[i].runtime != "" && rows[j].runtime != "" ::
      rows[i].port != rows[j].port || !Shared(rows[i].host, rows[j].host)
  }

  predicate DistinctIds(t: Table) {
    && (forall i | 0 <= i < |t.rows| :: 0 < t.rows[i].id < t.nextId)
    && (forall i, j | 0 <= i < j < |t.rows| :: t.rows[i].id != t.rows[j].id)
  }

  lemma RebindKeeps(t: Table, id: nat, appsOnly: bool, runtime: string, host: string, port: int, exclude: nat)
    requires NoConflicts(t.rows) && DistinctIds(t) && Available(t.rows, host, port, exclude)
    requires exclude == 0 || exclude == id
    ensures var rows' := Set(t.rows, id, appsOnly, runtime, host, port);
            NoConflicts(rows') && DistinctIds(t.(rows := rows'))
  {
    hide Conflict, Shared, NormalizeHost;
    var rows' := Set(t.rows, id, appsOnly, runtime, host, port);
    forall i, j | 0 <= i < |rows'| && 0 <= j < |rows'| && i != j && IsApp(rows'[i]) && IsApp(rows'[j])
      ensures rows'[i].port != rows'[j].port || !Shared(rows'[i].host, rows'[j].host)
    {
      if rows'[i] != t.rows[i] {
        assert !InTheWay(t.rows[j], host, port, exclude);
        RowConflictIff(t.rows[j], host, port);
      } else if rows'[j] != t.rows[j] {
        assert !InTheWay(t.rows[i], host, port, exclude);
        RowConflictIff(t.rows[i], host, port);
      }
    }
  }

  lemma InsertKeeps(t: Table, runtime: string, host: string, port: int)
    requires NoConflicts(t.rows) && DistinctIds(t) && t.nextId > 0 && Available(t.rows, host, port, 0)
    ensures var t' := Table(t.rows + [Row(t.nextId, runtime, host, port)], t.nextId + 1);
            NoConflicts(t'.rows) && DistinctIds(t')
  {
    hide Conflict, Shared, NormalizeHost;
    forall i | 0 <= i < |t.rows| && IsApp(t.rows[i])
      ensures t.rows[i].port != port || (!Shared(t.rows[i].host, host) && !Shared(host, t.rows[i].host))
    {
      assert !InTheWay(t.rows[i], host, port, 0);
      RowConflictIff(t.rows[i], host, port);
    }
  }

  lemma ClearKeeps(t: Table, id: nat)
    requires NoConflicts(t.rows) && DistinctIds(t)
    ensures NoConflicts(Clear(t, id).rows) && DistinctIds(Clear(t, id))
  {
    hide Conflict, Shared;
  }

  lemma {:induction false} DeleteKeeps(rows: seq<Row>, id: nat)
    ensures forall i | 0 <= i < |WithoutId(rows, id)| :: WithoutId(rows, id)[i] in rows
    ensures NoConflicts(rows) ==> NoConflicts(WithoutId(rows, id))
    decreases rows
  {
    hide Conflict, Shared, IsApp;
    if rows != [] {
      DeleteKeeps(rows[1..], id);
      assert forall i | 0 <= i < |rows[1..]| :: rows[1..][i] == rows[i + 1];
      assert forall i | 0 <= i < |WithoutId(rows[1..], id)| :: WithoutId(rows[1..], id)[i] in rows[1..];
    }
  }

  lemma {:induction false} DeleteDistinct(rows: seq<Row>, id: nat)
    requires forall i, j | 0 <= i < j < |rows| :: rows[i].id != rows[j].id
    ensures forall i, j | 0 <= i < j < |WithoutId(rows, id)| :: WithoutId(rows, id)[i].id != WithoutId(rows, id)[j].id
    decreases rows
  {
    hide NoConflicts;
    if rows != [] {
      DeleteDistinct(rows[1..], id);
      DeleteKeeps(rows[1..], id);
      assert forall i | 0 <= i < |rows[1..]| :: rows[1..][i] == rows[i + 1];
      assert forall i | 0 <= i < |WithoutId(rows[1..], id)| :: WithoutId(rows[1..], id)[i] in rows[1..];
    }
  }

  // ---- What each request does ----

  /** A request is refused: the port is no TCP port, another app has it on a shared address, or the probe fails. */
  ghost predicate Refused(rows: seq<Row>, except: nat, host: string, port: int, free: bool) {
    || port < 1 || port > 65535 || !free
    || exists i | 0 <= i < |rows| :: rows[i].runtime != "" && rows[i].id != except && rows[i].port == port && Shared(rows[i].host, host)
  }

  lemma RefusedIff(rows: seq<Row>, except: nat, host: string, port: int, free: bool)
    requires forall i | 0 <= i < |rows| :: rows[i].id > 0
    ensures Refused(rows, except, host, port, free) <==> !Available(rows, host, port, except) || !free
  {
    hide Conflict, Shared, NormalizeHost;
    forall i | 0 <= i < |rows| ensures Conflict(rows[i].host, rows[i].port, NormalizeHost(host), port) <==>
                                       rows[i].port == port && Shared(rows[i].host, host)
    {
      RowConflictIff(rows[i], host, port);
    }
  }

  /** Every row but number `i` is as before, and no row is added or removed. */
  predicate OnlyRow(rows: seq<Row>, rows': seq<Row>, i: nat, row: Row) {
    |rows'| == |rows| && i < |rows| && rows'[i] == row && forall j | 0 <= j < |rows| && j != i :: rows'[j] == rows[j]
  }

  lemma {:induction false} FindIs(rows: seq<Row>, id: nat)
    ensures Find(rows, id).None? <==> forall i | 0 <= i < |rows| :: rows[i].id != id || rows[i].runtime == ""
    ensures Find(rows, id).Some? ==> Find(rows, id).value in rows
    ensures Find(rows, id).Some? ==> Find(rows, id).value.id == id && Find(rows, id).value.runtime != ""
    decreases rows
  {
    if rows != [] {
      FindIs(rows[1..], id);
      assert forall i | 1 <= i < |rows| :: rows[i] == rows[1..][i - 1];
    }
  }

  lemma FindApp(t: Table, i: nat)
    requires DistinctIds(t) && i < |t.rows| && t.rows[i].runtime != ""
    ensures Find(t.rows, t.rows[i].id) == Some(t.rows[i])
  {
    FindIs(t.rows, t.rows[i].id);
  }

  /** What a runtime change does to the app in row `i`: unless it is refused, the row gets the port asked for (its
      own if none was), the loopback if it had no host, and nothing else changes anywhere. */
  lemma UpdateRuntimeEffect(t: Table, i: nat, port: int, free: bool)
    requires DistinctIds(t) && i < |t.rows| && t.rows[i].runtime != ""
    ensures var t' := UpdateRuntime(t, t.rows[i].id, port, free);
            var app := t.rows[i];
            var host := if TrimSpace(app.host) == "" then "127.0.0.1" else app.host;
            var p := if port <= 0 then app.port else port;
            && t'.nextId == t.nextId
            && if Refused(t.rows, app.id, host, p, free) then t'.rows == t.rows
               else OnlyRow(t.rows, t'.rows, i, Row(app.id, app.runtime, host, p))
  {
    hide Available, Refused, TrimSpace, Find;
    var app := t.rows[i];
    var host := if TrimSpace(app.host) == "" then "127.0.0.1" else app.host;
    FindApp(t, i);
    RefusedIff(t.rows, app.id, host, if port <= 0 then app.port else port, free);
  }

  /** What an update does to the app in row `i`: unless it is refused, the row gets the runtime ("go" for a blank
      one), host and port of the request. */
  lemma UpdateEffect(t: Table, i: nat, runtime: string, host: string, port: int, free: bool)
    requires DistinctIds(t) && i < |t.rows| && t.rows[i].runtime != ""
    ensures var t' := Update(t, t.rows[i].id, runtime, host, port, free);
            && t'.nextId == t.nextId
            && if Refused(t.rows, t.rows[i].id, host, port, free) then t'.rows == t.rows
               else OnlyRow(t.rows, t'.rows, i, Row(t.rows[i].id, if TrimSpace(runtime) == "" then "go" else runtime, host, port))
  {
    hide Available, Refused, TrimSpace, Find;
    FindApp(t, i);
    RefusedIff(t.rows, t.rows[i].id, host, port, free);
  }

  /** Neither update changes anything when no app has the number. */
  lemma UpdateOfNoApp(t: Table, id: nat, runtime: string, host: string, port: int, free: bool)
    requires forall i | 0 <= i < |t.rows| :: t.rows[i].id != id || t.rows[i].runtime == ""
    ensures Update(t, id, runtime, host, port, free) == t && UpdateRuntime(t, id, port, free) == t
  {
    FindIs(t.rows, id);
  }

  /** What a creation without a site does: unless it is refused, one row is added at the end. It is an app when the
      start succeeds, and else a row without runtime, host and port. */
  lemma CreateEffect(t: Table, runtime: string, host: string, port: int, free: bool, started: bool)
    requires DistinctIds(t) && t.nextId > 0
    ensures var t' := Create(t, 0, runtime, host, port, free, started);
            if Refused(t.rows, 0, host, port, free) then t' == t
            else
              && t'.nextId == t.nextId + 1 && |t'.rows| == |t.rows| + 1
              && (forall j | 0 <= j < |t.rows| :: t'.rows[j] == t.rows[j])
              && t'.rows[|t.rows|] == if started then Row(t.nextId, if TrimSpace(runtime) == "" then "go" else runtime, host, port)
                                      else Row(t.nextId, "", "", 0)
  {
    hide Available, Refused, TrimSpace;
    RefusedIff(t.rows, 0, host, port, free);
  }

  /** What a creation on the site in row `i` does, and that one on a site that is not there changes nothing. */
  lemma CreateOnSiteEffect(t: Table, i: nat, runtime: string, host: string, port: int, free: bool, started: bool)
    requires DistinctIds(t) && i < |t.rows|
    ensures var t' := Create(t, t.rows[i].id, runtime, host, port, free, started);
            && t'.nextId == t.nextId
            && if Refused(t.rows, 0, host, port, free) then t'.rows == t.rows
               else OnlyRow(t.rows, t'.rows, i,
                            if started then Row(t.rows[i].id, if TrimSpace(runtime) == "" then "go" else runtime, host, port)
                            else Row(t.rows[i].id, "", "", 0))
    ensures forall id: nat | 0 < id && (forall j | 0 <= j < |t.rows| :: t.rows[j].id != id) ::
              Create(t, id, runtime, host, port, free, started) == t
  {
    hide Available, Refused, TrimSpace;
    RefusedIff(t.rows, 0, host, port, free);
    forall id: nat | 0 < id && (forall j | 0 <= j < |t.rows| :: t.rows[j].id != id)
      ensures Create(t, id, runtime, host, port, free, started) == t
    {
      assert Set(t.rows, id, false, Runtime(runtime), host, port) == t.rows;
      assert Clear(t, id).rows == t.rows;
    }
  }

  datatype Request =
    | AddSite
    | AddApp(site: nat, runtime: string, host: string, port: int, free: bool, started: bool)
    | ChangeApp(id: nat, runtime: string, host: string, port: int, free: bool)
    | ChangeRuntime(id: nat, port: int, free: bool)
    | ClearApp(id: nat)
    | Drop(id: nat)

  function Serve(t: Table, q: Request): Table {
    match q
    case AddSite => Table(t.rows + [Row(t.nextId, "", "", 0)], t.nextId + 1)
    case AddApp(site, runtime, host, port, free, started) => Create(t, site, runtime, host, port, free, started)
    case ChangeApp(id, runtime, host, port, free) => Update(t, id, runtime, host, port, free)
    case ChangeRuntime(id, port, free) => UpdateRuntime(t, id, port, free)
    case ClearApp(id) => Clear(t, id)
    case Drop(id) => t.(rows := WithoutId(t.rows, id))
  }

  function ServeAll(t: Table, qs: seq<Request>): Table
    decreases qs
  {
    if qs == [] then t else ServeAll(Serve(t, qs[0]), qs[1..])
  }

  lemma CreateKeeps(t: Table, site: nat, runtime: string, host: string, port: int, free: bool, started: bool)
    requires NoConflicts(t.rows) && DistinctIds(t) && t.nextId > 0
    ensures var t' := Create(t, site, runtime, host, port, free, started);
            NoConflicts(t'.rows) && DistinctIds(t') && t'.nextId > 0
  {
    hide Conflict, Shared, NoConflicts, DistinctIds, Available;
    if Available(t.rows, host, port, 0) && free {
      var created :=
        if site > 0 then t.(rows := Set(t.rows, site, false, Runtime(runtime), host, port))
        else Table(t.rows + [Row(t.nextId, Runtime(runtime), host, port)], t.nextId + 1);
      if site > 0 {
        RebindKeeps(t, site, false, Runtime(runtime), host, port, 0);
      } else {
        InsertKeeps(t, Runtime(runtime), host, port);
      }
      ClearKeeps(created, if site > 0 then site else t.nextId);
    }
  }

  lemma AddSiteKeeps(t: Table)
    requires NoConflicts(t.rows) && DistinctIds(t) && t.nextId > 0
    ensures var t' := Table(t.rows + [Row(t.nextId, "", "", 0)], t.nextId + 1); NoConflicts(t'.rows) && DistinctIds(t')
  {
    hide Conflict, Shared;
  }

  lemma DropKeeps(t: Table, id: nat)
    requires NoConflicts(t.rows) && DistinctIds(t)
    ensures NoConflicts(WithoutId(t.rows, id)) && DistinctIds(t.(rows := WithoutId(t.rows, id)))
  {
    hide Conflict, Shared, NoConflicts;
    DeleteKeeps(t.rows, id);
    DeleteDistinct(t.rows, id);
  }

  lemma UpdateKeeps(t: Table, id: nat, runtime: string, host: string, port: int, free: bool)
    requires NoConflicts(t.rows) && DistinctIds(t) && t.nextId > 0
    ensures var t' := Update(t, id, runtime, host, port, free);
            NoConflicts(t'.rows) && DistinctIds(t') && t'.nextId > 0
  {
    hide Conflict, Shared, Available, Find, NoConflicts, DistinctIds, Runtime;
    if Find(t.rows, id).Some? && Available(t.rows, host, port, id) && free {
      RebindKeeps(t, id, true, Runtime(runtime), host, port, id);
    }
  }

  lemma UpdateRuntimeKeeps(t: Table, id: nat, port: int, free: bool)
    requires NoConflicts(t.rows) && DistinctIds(t) && t.nextId > 0
    ensures var t' := UpdateRuntime(t, id, port, free);
            NoConflicts(t'.rows) && DistinctIds(t') && t'.nextId > 0
  {
    hide Conflict, Shared, Available, Find, NoConflicts, DistinctIds, Runtime;
    var app := Find(t.rows, id);
    if app.Some? {
      var host := if TrimSpace(app.value.host) == "" then "127.0.0.1" else app.value.host;
      var p := if port > 0 then port else app.value.port;
      if Available(t.rows, host, p, id) && free {
        RebindKeeps(t, id, true, app.value.runtime, host, p, id);
      }
    }
  }

  lemma ServeKeeps(t: Table, q: Request)
    requires NoConflicts(t.rows) && DistinctIds(t) && t.nextId > 0
    ensures NoConflicts(Serve(t, q).rows) && DistinctIds(Serve(t, q)) && Serve(t, q).nextId > 0
  {
    hide Create, Update, UpdateRuntime, NoConflicts, DistinctIds, WithoutId;
    match q
    case AddSite => AddSiteKeeps(t);
    case AddApp(site, runtime, host, port, free, started) =>
      CreateKeeps(t, site, runtime, host, port, free, started);
    case ChangeApp(id, runtime, host, port, free) => UpdateKeeps(t, id, runtime, host, port, free);
    case ChangeRuntime(id, port, free) => UpdateRuntimeKeeps(t, id, port, free);
    case ClearApp(id) => ClearKeeps(t, id);
    case Drop(id) => DropKeeps(t, id);
  }

  /** Over every run of creations, updates, runtime changes, clearings and deletions, no two apps
      have conflicting bindings. */
  lemma {:induction false} BindingsNeverConflict(t: Table, qs: seq<Request>)
    requires NoConflicts(t.rows) && DistinctIds(t) && t.nextId > 0
    ensures NoConflicts(ServeAll(t, qs).rows) && DistinctIds(ServeAll(t, qs))
    decreases qs
  {
    hide NoConflicts, DistinctIds, Serve;
    if qs != [] {
      ServeKeeps(t, qs[0]);
      BindingsNeverConflict(Serve(t, qs[0]), qs[1..]);
    }
  }
}
