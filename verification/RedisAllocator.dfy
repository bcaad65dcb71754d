/** Redis connections and the allocation of database numbers on each host. */
module RedisAllocator {
  import opened Prelude

  const NUMBERS: nat := 4096

  datatype Connection = Connection(id: nat, host: string, port: int, db: int)

  function NormalizeHost(host: string): string {
    var h := TrimSpace(ToLower(host));
    if h == "" || h == "localhost" || h == "::1" then "127.0.0.1" else h
  }

  /** The database numbers taken on a normalised host. */
  function Used(rows: seq<Connection>, host: string): set<int> {
    set i | 0 <= i < |rows| && NormalizeHost(rows[i].host) == host :: rows[i].db
  }

  /** The search loop: the least number from `next` on that is not used. */
  function LeastFree(used: set<int>, next: nat): (free: Option<int>)
    ensures free.Some? ==> next <= free.value < NUMBERS && free.value !in used
    ensures free.Some? ==> forall k | next <= k < free.value :: k in used
    ensures free.None? ==> forall k | next <= k < NUMBERS :: k in used
    decreases NUMBERS - next
  {
    if next >= NUMBERS then None
    else if next !in used then Some(next)
    else LeastFree(used, next + 1)
  }

  /** ensureRedisDBUnique: the number to use, or None for the error. */
  function Allocate(rows: seq<Connection>, host: string, requested: int): Option<int> {
    var used := Used(rows, NormalizeHost(host));
    if requested !in used then Some(requested) else LeastFree(used, 0)
  }

  /** The table and the next primary key. */
  datatype Table = Table(rows: seq<Connection>, nextId: nat)

  function Port(port: int): int {
    if port < 1 || port > 65535 then 6379 else port
  }

  /** CreateRedis. `ready` and `provisioned` say whether the steps before and after the insert succeed. */
  function Create(t: Table, host: string, port: int, requested: int, ready: bool, provisioned: bool): Table {
    if requested < 0 then t
    else
      var db := Allocate(t.rows, host, requested);
      if db.None? || !ready then t
      else if !provisioned then t.(nextId := t.nextId + 1)
      else Table(t.rows + [Connection(t.nextId, host, Port(port), db.value)], t.nextId + 1)
  }

  function WithoutId(rows: seq<Connection>, id: nat): (kept: seq<Connection>)
    ensures forall r | r in kept :: r in rows && r.id != id
    ensures forall r | r in rows && r.id != id :: r in kept
  {
    if rows == [] then []
    else if rows[0].id == id then WithoutId(rows[1..], id)
    else [rows[0]] + WithoutId(rows[1..], id)
  }

  class RedisConnections {
    var rows: seq<Connection>
    var nextId: nat

    constructor ()
      ensures Contents() == Table([], 1)
    {
      rows, nextId := [], 1;
    }

    ghost function Contents(): Table
      reads this
    {
      Table(rows, nextId)
    }

    method EnsureDbUnique(host: string, requested: int) returns (db: Option<int>, adjusted: bool)
      ensures db == Allocate(rows, host, requested)
      ensures adjusted == (db.Some? && db != Some(requested))
    {
      hide NormalizeHost, Used;
      var h := NormalizeHost(host);
      var used: set<int> := {};
      UsedNothing(h);
      assert rows[..0] == [];
      for i := 0 to |rows|
        invariant used == Used(rows[..i], h)
      {
        UsedSnoc(rows[..i], rows[i], h);
        assert rows[..i + 1] == rows[..i] + [rows[i]];
        if NormalizeHost(rows[i].host) != h {
          continue;
        }
        used := used + {rows[i].db};
      }
      assert rows[..|rows|] == rows;
      if requested !in used {
        return Some(requested), false;
      }
      var next := 0;
      while next < NUMBERS
        invariant 0 <= next <= NUMBERS
        invariant LeastFree(used, 0) == LeastFree(used, next)
      {
        if next !in used {
          return Some(next), true;
        }
        next := next + 1;
      }
      return None, false;
    }

    method CreateRedis(host: string, port: int, requested: int, ready: bool, provisioned: bool) returns (ok: bool)
      requires forall r | r in rows :: r.id < nextId
      modifies this
      ensures Contents() == Create(old(Contents()), host, port, requested, ready, provisioned)
      ensures ok == (requested >= 0 && Allocate(old(rows), host, requested).Some? && ready && provisioned)
    {
      if requested < 0 {
        return false;
      }
      var port := if port < 1 || port > 65535 then 6379 else port;
      var db, adjusted := EnsureDbUnique(host, requested);
      if db.None? || !ready {
        return false;
      }
      var item := Connection(nextId, host, port, if adjusted then db.value else requested);
      rows := rows + [item];
      nextId := nextId + 1;
      if !provisioned {
        rows := WithoutId(rows, item.id);
        WithoutNew(old(rows), item);
        return false;
      }
      return true;
    }

    /** DeleteRedis, for a connection that is found and can be taken down. */
    method DeleteRedis(id: nat)
      modifies this
      ensures Contents() == Delete(old(Contents()), id)
    {
      rows := WithoutId(rows, id);
    }
  }

  function Delete(t: Table, id: nat): Table {
    t.(rows := WithoutId(t.rows, id))
  }

  lemma UsedNothing(host: string)
    ensures Used([], host) == {}
  {
  }

  lemma UsedSnoc(rows: seq<Connection>, r: Connection, host: string)
    ensures Used(rows + [r], host) == Used(rows, host) + if NormalizeHost(r.host) == host then {r.db} else {}
  {
    hide NormalizeHost;
    var all := rows + [r];
    forall x ensures x in Used(all, host) <==> x in Used(rows, host) || (NormalizeHost(r.host) == host && x == r.db) {
      if x in Used(rows, host) {
        var i :| 0 <= i < |rows| && NormalizeHost(rows[i].host) == host && rows[i].db == x;
        assert all[i] == rows[i];
      }
      if NormalizeHost(r.host) == host && x == r.db {
        assert all[|rows|] == r;
      }
    }
  }

  lemma {:induction false} WithoutNew(rows: seq<Connection>, r: Connection)
    requires forall q | q in rows :: q.id != r.id
    ensures WithoutId(rows + [r], r.id) == rows
    decreases rows
  {
    if rows == [] {
      assert rows + [r] == [r] && [r][1..] == [];
    } else {
      assert (rows + [r])[1..] == rows[1..] + [r];
      WithoutNew(rows[1..], r);
    }
  }

  // ---- Allocation never fails while a number is free ----

  /** Numbers that fill 0 to n - 1 are at least n. */
  lemma {:induction false} Pigeonhole(used: set<int>, n: nat)
    requires forall k | 0 <= k < n :: k in used
    ensures n <= |used|
    decreases n
  {
    if n > 0 {
      Pigeonhole(used - {n - 1}, n - 1);
    }
  }

  /** The exact error condition, and the pigeonhole behind "fewer than 4096 in use". */
  lemma AllocationFailsIff(rows: seq<Connection>, host: string, requested: int)
    ensures var used := Used(rows, NormalizeHost(host));
            && (Allocate(rows, host, requested).None? <==> requested in used && forall k | 0 <= k < NUMBERS :: k in used)
            && (|used| < NUMBERS ==> Allocate(rows, host, requested).Some?)
  {
    hide NormalizeHost, Used;
    if Allocate(rows, host, requested).None? {
      Pigeonhole(Used(rows, NormalizeHost(host)), NUMBERS);
    }
  }

  /** A free request is granted; a clash gets the least free number. */
  lemma AllocationIsLeast(rows: seq<Connection>, host: string, requested: int)
    requires Allocate(rows, host, requested).Some?
    ensures var used := Used(rows, NormalizeHost(host));
            var db := Allocate(rows, host, requested).value;
            && db !in used
            && (requested !in used ==> db == requested)
            && (requested in used ==> 0 <= db < NUMBERS && forall k | 0 <= k < db :: k in used)
  {
  }

  // ---- One server ----

  lemma OneServerIff(a: string, b: string)
    ensures OneServer(a, b) <==> NormalizeHost(a) == NormalizeHost(b)
  {
    hide TrimSpace, ToLower;
    var local := ["", "localhost", "::1", "127.0.0.1"];
    assert local[0] == "" && local[1] == "localhost" && local[2] == "::1" && local[3] == "127.0.0.1";
  }

  /** Some connection on the server of `host` has the number. */
  predicate Taken(rows: seq<Connection>, host: string, db: int) {
    exists i | 0 <= i < |rows| :: OneServer(rows[i].host, host) && rows[i].db == db
  }

  lemma UsedIsTaken(rows: seq<Connection>, host: string, db: int)
    ensures db in Used(rows, NormalizeHost(host)) <==> Taken(rows, host, db)
  {
    hide NormalizeHost, OneServer;
    forall i | 0 <= i < |rows| ensures OneServer(rows[i].host, host) <==> NormalizeHost(rows[i].host) == NormalizeHost(host) {
      OneServerIff(rows[i].host, host);
    }
  }

  /** What a request to add a connection does. It is refused, and every row stays, exactly when the number is
      negative, a step fails, or the number is taken and no number below 4096 is free on that server. Otherwise
      one row is added: with the number if it is free, else with the least free one. */
  lemma CreateEffect(t: Table, host: string, port: int, requested: int, ready: bool, provisioned: bool)
    ensures var t' := Create(t, host, port, requested, ready, provisioned);
            if requested < 0 || !ready || !provisioned
               || (Taken(t.rows, host, requested) && forall k | 0 <= k < 4096 :: Taken(t.rows, host, k))
            then t'.rows == t.rows
            else
              && |t'.rows| == |t.rows| + 1 && t'.nextId == t.nextId + 1
              && (forall i | 0 <= i < |t.rows| :: t'.rows[i] == t.rows[i])
              && var added := t'.rows[|t.rows|];
                 && added.id == t.nextId && added.host == host
                 && added.port == (if 1 <= port <= 65535 then port else 6379)
                 && (!Taken(t.rows, host, requested) ==> added.db == requested)
                 && (Taken(t.rows, host, requested) ==>
                       0 <= added.db < 4096 && !Taken(t.rows, host, added.db)
                       && forall k | 0 <= k < added.db :: Taken(t.rows, host, k))
  {
    hide NormalizeHost, Used, OneServer, Taken;
    AllocationFailsIff(t.rows, host, requested);
    if Allocate(t.rows, host, requested).Some? {
      AllocationIsLeast(t.rows, host, requested);
    }
    forall k ensures k in Used(t.rows, NormalizeHost(host)) <==> Taken(t.rows, host, k) {
      UsedIsTaken(t.rows, host, k);
    }
  }

  /** A number in use under one spelling of the local host is not given out again under any other. */
  lemma LocalSpellingsClash(rows: seq<Connection>, i: nat, host: string)
    requires i < |rows|
    requires TrimSpace(ToLower(rows[i].host)) in ["", "localhost", "::1", "127.0.0.1"]
    requires TrimSpace(ToLower(host)) in ["", "localhost", "::1", "127.0.0.1"]
    ensures Allocate(rows, host, rows[i].db) != Some(rows[i].db)
  {
    hide NormalizeHost, Used, TrimSpace, ToLower;
    assert OneServer(rows[i].host, host);
    assert Taken(rows, host, rows[i].db);
    UsedIsTaken(rows, host, rows[i].db);
  }

  // ---- Every run ----

  /** The two hosts name one server: equal up to case and surrounding white space, or both local. */
  predicate OneServer(a: string, b: string) {
    var x, y := TrimSpace(ToLower(a)), TrimSpace(ToLower(b));
    var local := ["", "localhost", "::1", "127.0.0.1"];
    x == y || (x in local && y in local)
  }

  predicate Unique(rows: seq<Connection>) {
    forall i, j | 0 <= i < j < |rows| :: OneServer(rows[i].host, rows[j].host) ==> rows[i].db != rows[j].db
  }

  predicate FreshIds(t: Table) {
    (forall r | r in t.rows :: r.id < t.nextId) && DistinctIds(t.rows)
  }

  datatype Request =
    | Add(host: string, port: int, db: int, ready: bool, provisioned: bool)
    | Drop(id: nat)

  function Serve(t: Table, q: Request): Table {
    match q
    case Add(host, port, db, ready, provisioned) => Create(t, host, port, db, ready, provisioned)
    case Drop(id) => Delete(t, id)
  }

  function ServeAll(t: Table, qs: seq<Request>): Table
    decreases qs
  {
    if qs == [] then t else ServeAll(Serve(t, qs[0]), qs[1..])
  }

  lemma CreateKeeps(t: Table, host: string, port: int, requested: int, ready: bool, provisioned: bool)
    requires Unique(t.rows) && FreshIds(t)
    ensures var t' := Create(t, host, port, requested, ready, provisioned);
            Unique(t'.rows) && FreshIds(t')
  {
    hide NormalizeHost, OneServer, Port;
    var t' := Create(t, host, port, requested, ready, provisioned);
    if |t'.rows| > |t.rows| {
      AllocationIsLeast(t.rows, host, requested);
      UsedIsTaken(t.rows, host, t'.rows[|t.rows|].db);
    }
  }

  lemma {:induction false} DeleteUnique(rows: seq<Connection>, id: nat)
    requires Unique(rows)
    ensures Unique(WithoutId(rows, id))
    decreases rows
  {
    hide OneServer;
    if rows != [] {
      UniqueTail(rows);
      DeleteUnique(rows[1..], id);
      UniqueCons(rows, WithoutId(rows[1..], id));
    }
  }

  lemma UniqueTail(rows: seq<Connection>)
    requires rows != [] && Unique(rows)
    ensures Unique(rows[1..])
  {
    hide OneServer;
  }

  lemma UniqueCons(rows: seq<Connection>, kept: seq<Connection>)
    requires rows != [] && Unique(rows) && Unique(kept) && forall r | r in kept :: r in rows[1..]
    ensures Unique([rows[0]] + kept)
  {
    hide OneServer;
    var all := [rows[0]] + kept;
    forall j | 1 <= j < |all| && OneServer(rows[0].host, all[j].host) ensures all[j].db != rows[0].db {
      assert all[j] in kept;
      var k :| 0 <= k < |rows[1..]| && rows[1..][k] == all[j];
      assert rows[k + 1] == all[j];
    }
  }

  predicate DistinctIds(rows: seq<Connection>) {
    forall i, j | 0 <= i < j < |rows| :: rows[i].id != rows[j].id
  }

  lemma {:induction false} DeleteDistinct(rows: seq<Connection>, id: nat)
    requires DistinctIds(rows)
    ensures DistinctIds(WithoutId(rows, id))
    decreases rows
  {
    if rows != [] {
      DeleteDistinct(rows[1..], id);
      var rest := WithoutId(rows[1..], id);
      assert forall i | 0 <= i < |rest| :: rest[i] in rest && rest[i] in rows[1..];
    }
  }

  /** Over every run of creations and deletions no two connections share a number on one server. */
  lemma {:induction false} NumbersStayUnique(t: Table, qs: seq<Request>)
    requires Unique(t.rows) && FreshIds(t)
    ensures Unique(ServeAll(t, qs).rows) && FreshIds(ServeAll(t, qs))
    decreases qs
  {
    hide Create, Unique;
    if qs != [] {
      match qs[0] {
        case Add(host, port, db, ready, provisioned) => CreateKeeps(t, host, port, db, ready, provisioned);
        case Drop(id) =>
          DeleteUnique(t.rows, id);
          DeleteDistinct(t.rows, id);
      }
      NumbersStayUnique(Serve(t, qs[0]), qs[1..]);
    }
  }
}
