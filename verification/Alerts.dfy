/** Health alerts: one open event per site and type, opened, refreshed and resolved by health checks. */
module Alerts {
  import opened Prelude

  datatype Status = Open | Resolved

  datatype Event = Event(
    id: nat, site: nat, kind: string, severity: string, status: Status, message: string,
    openedAt: int, closedAt: Option<int>)

  /** The table in primary-key order, and the events sent to the webhook. */
  datatype Table = Table(rows: seq<Event>, sent: seq<Event>)

  /** One health check of a site; `diskText` is the formatted percentage. */
  datatype Check = Check(
    site: nat, service: string, ssl: string, disk: real, diskText: string, summary: string, at: int)

  const DISK_ALERT: real := 85.0
  const SERVICE_DOWN := "service_down"
  const SSL_EXPIRING := "ssl_expiring"
  const DISK_HIGH := "disk_high"

  predicate IsOpen(e: Event, site: nat, kind: string) {
    e.site == site && e.kind == kind && e.status == Open
  }

  /** The first open row, or the number of rows. */
  function FirstOpen(rows: seq<Event>, site: nat, kind: string): (i: nat)
    ensures i <= |rows|
    ensures forall j | 0 <= j < i :: !IsOpen(rows[j], site, kind)
    ensures i < |rows| ==> IsOpen(rows[i], site, kind)
    decreases rows
  {
    if rows == [] || IsOpen(rows[0], site, kind) then 0 else 1 + FirstOpen(rows[1..], site, kind)
  }

  function NewEvent(rows: seq<Event>, site: nat, kind: string, severity: string, message: string, at: int): Event {
    Event(|rows|, site, kind, severity, Open, message, at, None)
  }

  function OpenOrUpdate(t: Table, site: nat, kind: string, severity: string, message: string, at: int): Table {
    var i := FirstOpen(t.rows, site, kind);
    if i == |t.rows| then
      var e := NewEvent(t.rows, site, kind, severity, message, at);
      Table(t.rows + [e], t.sent + [e])
    else t.(rows := t.rows[i := t.rows[i].(severity := severity, message := message, openedAt := at)])
  }

  function CloseIf(e: Event, site: nat, kind: string, at: int): Event {
    if IsOpen(e, site, kind) then e.(status := Resolved, closedAt := Some(at)) else e
  }

  function Resolve(t: Table, site: nat, kind: string, at: int): Table {
    t.(rows := seq(|t.rows|, i requires 0 <= i < |t.rows| => CloseIf(t.rows[i], site, kind, at)))
  }

  /** The condition a check of `kind` reports. */
  predicate Active(c: Check, kind: string) {
    || (kind == SERVICE_DOWN && c.service == "stopped")
    || (kind == SSL_EXPIRING && (c.ssl == "expired" || c.ssl == "expiring"))
    || (kind == DISK_HIGH && c.disk >= DISK_ALERT)
  }

  function Severity(kind: string): string {
    if kind == SSL_EXPIRING then "warning" else "critical"
  }

  function Message(c: Check, kind: string): string {
    if kind == SERVICE_DOWN then "Runtime service is stopped. " + c.summary
    else if kind == SSL_EXPIRING then "SSL certificate needs attention. " + c.summary
    else "Platform disk usage is " + c.diskText + "%."
  }

  function CheckOne(t: Table, c: Check, kind: string): Table {
    if Active(c, kind) then OpenOrUpdate(t, c.site, kind, Severity(kind), Message(c, kind), c.at)
    else Resolve(t, c.site, kind, c.at)
  }

  function Sync(t: Table, c: Check): Table {
    CheckOne(CheckOne(CheckOne(t, c, SERVICE_DOWN), c, SSL_EXPIRING), c, DISK_HIGH)
  }

  function SyncAll(checks: seq<Check>): Table
    decreases |checks|
  {
    if checks == [] then Table([], []) else Sync(SyncAll(checks[..|checks| - 1]), checks[|checks| - 1])
  }

  class PlatformAlerts {
    var rows: seq<Event>
    var sent: seq<Event>

    constructor ()
      ensures Contents() == Table([], [])
    {
      rows, sent := [], [];
    }

    ghost function Contents(): Table
      reads this
    {
      Table(rows, sent)
    }

    /** AlertEventRepository.OpenOrUpdate, with the webhook its caller sends for a new event. */
    method OpenOrUpdateEvent(site: nat, kind: string, severity: string, message: string, at: int) returns (isNew: bool)
      modifies this
      ensures Contents() == OpenOrUpdate(old(Contents()), site, kind, severity, message, at)
      ensures isNew == (|rows| > |old(rows)|)
    {
      var i := 0;
      while i < |rows| && !IsOpen(rows[i], site, kind)
        invariant 0 <= i <= |rows| && rows == old(rows) && sent == old(sent)
        invariant forall j | 0 <= j < i :: !IsOpen(rows[j], site, kind)
      {
        i := i + 1;
      }
      assert i == FirstOpen(rows, site, kind);
      if i == |rows| {
        var e := NewEvent(rows, site, kind, severity, message, at);
        rows := rows + [e];
        sent := sent + [e];
        return true;
      }
      rows := rows[i := rows[i].(severity := severity, message := message, openedAt := at)];
      return false;
    }

    /** AlertEventRepository.Resolve. */
    method ResolveEvents(site: nat, kind: string, at: int)
      modifies this
      ensures Contents() == Resolve(old(Contents()), site, kind, at)
    {
      for i := 0 to |rows|
        invariant |rows| == |old(rows)| && sent == old(sent)
        invariant forall j | 0 <= j < i :: rows[j] == CloseIf(old(rows)[j], site, kind, at)
        invariant forall j | i <= j < |rows| :: rows[j] == old(rows)[j]
      {
        if rows[i].site == site && rows[i].kind == kind && rows[i].status == Open {
          rows := rows[i := rows[i].(status := Resolved, closedAt := Some(at))];
        }
      }
    }

    method RunCheck(active: bool, site: nat, kind: string, severity: string, message: string, at: int)
      modifies this
      ensures Contents() ==
              if active then OpenOrUpdate(old(Contents()), site, kind, severity, message, at)
              else Resolve(old(Contents()), site, kind, at)
    {
      if active {
        var isNew := OpenOrUpdateEvent(site, kind, severity, message, at);
        return;
      }
      ResolveEvents(site, kind, at);
    }

    /** syncAlerts. */
    method SyncAlerts(c: Check)
      modifies this
      ensures Contents() == Sync(old(Contents()), c)
    {
      hide OpenOrUpdate, Resolve;
      KindsDiffer();
      RunCheck(c.service == "stopped", c.site, SERVICE_DOWN, "critical", "Runtime service is stopped. " + c.summary, c.at);
      RunCheck(c.ssl == "expired" || c.ssl == "expiring", c.site, SSL_EXPIRING, "warning",
               "SSL certificate needs attention. " + c.summary, c.at);
      RunCheck(c.disk >= DISK_ALERT, c.site, DISK_HIGH, "critical", "Platform disk usage is " + c.diskText + "%.", c.at);
    }
  }

  lemma KindsDiffer()
    ensures SERVICE_DOWN != SSL_EXPIRING && SERVICE_DOWN != DISK_HIGH && SSL_EXPIRING != DISK_HIGH
  {
    assert SERVICE_DOWN[1] == 'e' && SSL_EXPIRING[1] == 's' && DISK_HIGH[1] == 'i';
  }

  // ---- What one check does to one kind of alert of one site ----

  predicate AtMostOneOpen(rows: seq<Event>, site: nat, kind: string) {
    forall i, j | 0 <= i < |rows| && 0 <= j < |rows| && IsOpen(rows[i], site, kind) && IsOpen(rows[j], site, kind) :: i == j
  }

  predicate HasOpen(rows: seq<Event>, site: nat, kind: string) {
    exists i | 0 <= i < |rows| :: IsOpen(rows[i], site, kind)
  }

  function Count(rows: seq<Event>, site: nat, kind: string): nat
    decreases |rows|
  {
    if rows == [] then 0
    else
      var last := rows[|rows| - 1];
      Count(rows[..|rows| - 1], site, kind) + if last.site == site && last.kind == kind then 1 else 0
  }

  lemma {:induction false} CountSame(a: seq<Event>, b: seq<Event>, site: nat, kind: string)
    requires |a| == |b| && forall i | 0 <= i < |a| :: a[i].site == b[i].site && a[i].kind == b[i].kind
    ensures Count(a, site, kind) == Count(b, site, kind)
    decreases |a|
  {
    if a != [] {
      CountSame(a[..|a| - 1], b[..|b| - 1], site, kind);
    }
  }

  lemma CountSnoc(a: seq<Event>, e: Event, site: nat, kind: string)
    ensures Count(a + [e], site, kind) == Count(a, site, kind) + if e.site == site && e.kind == kind then 1 else 0
  {
    assert (a + [e])[..|a|] == a;
  }

  /** Rows are only appended, and a row that is resolved, or of another kind, stays as it is. */
  predicate Extends(rows: seq<Event>, rows': seq<Event>) {
    && |rows| <= |rows'|
    && forall i | 0 <= i < |rows| ::
         && (rows[i].status == Resolved ==> rows'[i] == rows[i])
         && rows'[i].site == rows[i].site && rows'[i].kind == rows[i].kind && rows'[i].id == rows[i].id
  }

  /** The open event carries the message and time of the check that saw it last. */
  predicate Fresh(rows: seq<Event>, c: Check, kind: string) {
    forall i | 0 <= i < |rows| && IsOpen(rows[i], c.site, kind) ::
      rows[i].message == Message(c, kind) && rows[i].openedAt == c.at && rows[i].severity == Severity(kind)
  }

  lemma OneCheck(t: Table, c: Check, kind: string)
    requires AtMostOneOpen(t.rows, c.site, kind)
    ensures var t' := CheckOne(t, c, kind);
            var opens := Active(c, kind) && !HasOpen(t.rows, c.site, kind);
            && AtMostOneOpen(t'.rows, c.site, kind)
            && (HasOpen(t'.rows, c.site, kind) <==> Active(c, kind))
            && Fresh(t'.rows, c, kind)
            && Count(t'.rows, c.site, kind) == Count(t.rows, c.site, kind) + (if opens then 1 else 0)
            && Count(t'.sent, c.site, kind) == Count(t.sent, c.site, kind) + (if opens then 1 else 0)
            && Extends(t.rows, t'.rows)
  {
    hide Active, Message, Severity, Count, Fresh, OpenOrUpdate, Resolve, HasOpen, AtMostOneOpen, Extends, NewEvent;
    FirstOpenFinds(t.rows, c.site, kind);
    if Active(c, kind) {
      if FirstOpen(t.rows, c.site, kind) == |t.rows| {
        OpensNew(t, c, kind);
      } else {
        RefreshesOld(t, c, kind);
      }
    } else {
      ClosesAll(t, c, kind);
    }
  }

  lemma FirstOpenFinds(rows: seq<Event>, site: nat, kind: string)
    ensures HasOpen(rows, site, kind) <==> FirstOpen(rows, site, kind) < |rows|
  {
  }

  lemma OpensNew(t: Table, c: Check, kind: string)
    requires !HasOpen(t.rows, c.site, kind)
    ensures var t' := OpenOrUpdate(t, c.site, kind, Severity(kind), Message(c, kind), c.at);
            && AtMostOneOpen(t'.rows, c.site, kind) && HasOpen(t'.rows, c.site, kind) && Fresh(t'.rows, c, kind)
            && Count(t'.rows, c.site, kind) == Count(t.rows, c.site, kind) + 1
            && Count(t'.sent, c.site, kind) == Count(t.sent, c.site, kind) + 1
            && Extends(t.rows, t'.rows)
  {
    hide Message, Severity, Count;
    FirstOpenFinds(t.rows, c.site, kind);
    var e := NewEvent(t.rows, c.site, kind, Severity(kind), Message(c, kind), c.at);
    CountSnoc(t.rows, e, c.site, kind);
    CountSnoc(t.sent, e, c.site, kind);
    assert IsOpen((t.rows + [e])[|t.rows|], c.site, kind);
  }

  lemma RefreshesOld(t: Table, c: Check, kind: string)
    requires AtMostOneOpen(t.rows, c.site, kind) && FirstOpen(t.rows, c.site, kind) < |t.rows|
    ensures var t' := OpenOrUpdate(t, c.site, kind, Severity(kind), Message(c, kind), c.at);
            && AtMostOneOpen(t'.rows, c.site, kind) && HasOpen(t'.rows, c.site, kind) && Fresh(t'.rows, c, kind)
            && Count(t'.rows, c.site, kind) == Count(t.rows, c.site, kind) && t'.sent == t.sent
            && Extends(t.rows, t'.rows)
  {
    hide Message, Severity, Count;
    var t' := OpenOrUpdate(t, c.site, kind, Severity(kind), Message(c, kind), c.at);
    var i := FirstOpen(t.rows, c.site, kind);
    CountSame(t.rows, t'.rows, c.site, kind);
    assert IsOpen(t'.rows[i], c.site, kind);
    assert forall j | 0 <= j < |t.rows| && IsOpen(t'.rows[j], c.site, kind) :: IsOpen(t.rows[j], c.site, kind) && j == i;
  }

  lemma ClosesAll(t: Table, c: Check, kind: string)
    ensures var t' := Resolve(t, c.site, kind, c.at);
            && AtMostOneOpen(t'.rows, c.site, kind) && !HasOpen(t'.rows, c.site, kind) && Fresh(t'.rows, c, kind)
            && Count(t'.rows, c.site, kind) == Count(t.rows, c.site, kind) && t'.sent == t.sent
            && Extends(t.rows, t'.rows)
  {
    hide Message, Severity, Count;
    CountSame(t.rows, Resolve(t, c.site, kind, c.at).rows, c.site, kind);
  }

  /** Events of another site or kind are not touched. */
  predicate SameFor(t: Table, t': Table, site: nat, kind: string) {
    && |t.rows| <= |t'.rows|
    && (forall i | 0 <= i < |t.rows| ::
          (IsOpen(t.rows[i], site, kind) || IsOpen(t'.rows[i], site, kind)) ==> t'.rows[i] == t.rows[i])
    && (forall i | |t.rows| <= i < |t'.rows| :: !IsOpen(t'.rows[i], site, kind))
    && Count(t'.rows, site, kind) == Count(t.rows, site, kind)
    && Count(t'.sent, site, kind) == Count(t.sent, site, kind)
  }

  lemma OtherCheck(t: Table, c: Check, kind: string, site: nat, other: string)
    requires c.site != site || kind != other
    ensures SameFor(t, CheckOne(t, c, kind), site, other) && Extends(t.rows, CheckOne(t, c, kind).rows)
  {
    hide Active, Message, Severity, SameFor, Extends, OpenOrUpdate, Resolve;
    if !Active(c, kind) {
      OtherCloses(t, c, kind, site, other);
    } else if FirstOpen(t.rows, c.site, kind) == |t.rows| {
      OtherOpens(t, c, kind, site, other);
    } else {
      OtherRefreshes(t, c, kind, site, other);
    }
  }

  lemma OtherOpens(t: Table, c: Check, kind: string, site: nat, other: string)
    requires (c.site != site || kind != other) && FirstOpen(t.rows, c.site, kind) == |t.rows|
    ensures var t' := OpenOrUpdate(t, c.site, kind, Severity(kind), Message(c, kind), c.at);
            SameFor(t, t', site, other) && Extends(t.rows, t'.rows)
  {
    hide Message, Severity, Count;
    var e := NewEvent(t.rows, c.site, kind, Severity(kind), Message(c, kind), c.at);
    CountSnoc(t.rows, e, site, other);
    CountSnoc(t.sent, e, site, other);
  }

  lemma OtherRefreshes(t: Table, c: Check, kind: string, site: nat, other: string)
    requires (c.site != site || kind != other) && FirstOpen(t.rows, c.site, kind) < |t.rows|
    ensures var t' := OpenOrUpdate(t, c.site, kind, Severity(kind), Message(c, kind), c.at);
            SameFor(t, t', site, other) && Extends(t.rows, t'.rows)
  {
    hide Message, Severity, Count;
    CountSame(t.rows, OpenOrUpdate(t, c.site, kind, Severity(kind), Message(c, kind), c.at).rows, site, other);
  }

  lemma OtherCloses(t: Table, c: Check, kind: string, site: nat, other: string)
    requires c.site != site || kind != other
    ensures var t' := Resolve(t, c.site, kind, c.at);
            SameFor(t, t', site, other) && Extends(t.rows, t'.rows)
  {
    hide Count;
    CountSame(t.rows, Resolve(t, c.site, kind, c.at).rows, site, other);
  }

  lemma SameKeeps(t: Table, t': Table, site: nat, kind: string)
    requires SameFor(t, t', site, kind)
    ensures AtMostOneOpen(t.rows, site, kind) ==> AtMostOneOpen(t'.rows, site, kind)
    ensures HasOpen(t.rows, site, kind) <==> HasOpen(t'.rows, site, kind)
    ensures forall c: Check | c.site == site && Fresh(t.rows, c, kind) :: Fresh(t'.rows, c, kind)
  {
    hide Message, Severity;
    if HasOpen(t.rows, site, kind) {
      var i :| 0 <= i < |t.rows| && IsOpen(t.rows[i], site, kind);
      assert IsOpen(t'.rows[i], site, kind);
    }
    assert forall i | 0 <= i < |t'.rows| && IsOpen(t'.rows[i], site, kind) :: i < |t.rows| && IsOpen(t.rows[i], site, kind);
  }

  lemma SameTwice(a: Table, b: Table, c: Table, site: nat, kind: string)
    requires SameFor(a, b, site, kind) && SameFor(b, c, site, kind)
    ensures SameFor(a, c, site, kind)
  {
    hide Count;
    assert forall i | 0 <= i < |a.rows| && IsOpen(c.rows[i], site, kind) :: b.rows[i] == c.rows[i];
    assert forall i | |a.rows| <= i < |b.rows| :: !IsOpen(b.rows[i], site, kind);
  }

  lemma ExtendsTwice(a: seq<Event>, b: seq<Event>, c: seq<Event>)
    requires Extends(a, b) && Extends(b, c)
    ensures Extends(a, c)
  {
    assert forall i | 0 <= i < |a| && a[i].status == Resolved :: b[i] == a[i] && c[i] == b[i];
  }

  predicate IsKind(kind: string) {
    kind == SERVICE_DOWN || kind == SSL_EXPIRING || kind == DISK_HIGH
  }

  /** A whole check, seen from one kind of one site. */
  ghost predicate Effect(t: Table, t': Table, c: Check, site: nat, kind: string) {
    && Extends(t.rows, t'.rows)
    && (site != c.site ==> SameFor(t, t', site, kind))
    && (site == c.site ==>
          var opens := Active(c, kind) && !HasOpen(t.rows, site, kind);
          && AtMostOneOpen(t'.rows, site, kind)
          && (HasOpen(t'.rows, site, kind) <==> Active(c, kind))
          && Fresh(t'.rows, c, kind)
          && Count(t'.rows, site, kind) == Count(t.rows, site, kind) + (if opens then 1 else 0)
          && Count(t'.sent, site, kind) == Count(t.sent, site, kind) + (if opens then 1 else 0))
  }

  lemma SyncEffect(t: Table, c: Check, site: nat, kind: string)
    requires IsKind(kind) && AtMostOneOpen(t.rows, site, kind)
    ensures Effect(t, Sync(t, c), c, site, kind)
  {
    hide CheckOne, Active, HasOpen, AtMostOneOpen, Fresh, Count, SameFor, Extends, IsOpen;
    KindsDiffer();
    var t1 := CheckOne(t, c, SERVICE_DOWN);
    var t2 := CheckOne(t1, c, SSL_EXPIRING);
    var t3 := CheckOne(t2, c, DISK_HIGH);
    StepEffect(t, c, SERVICE_DOWN, site, kind);
    StepEffect(t1, c, SSL_EXPIRING, site, kind);
    StepEffect(t2, c, DISK_HIGH, site, kind);
    ExtendsTwice(t.rows, t1.rows, t2.rows);
    ExtendsTwice(t.rows, t2.rows, t3.rows);
    if site != c.site {
      SameTwice(t, t1, t2, site, kind);
      SameTwice(t, t2, t3, site, kind);
    } else {
      SameCounts(t, t1, site, kind);
      SameCounts(t1, t2, site, kind);
      SameCounts(t2, t3, site, kind);
    }
  }

  lemma SameCounts(t: Table, t': Table, site: nat, kind: string)
    ensures SameFor(t, t', site, kind) ==>
              && Count(t'.rows, site, kind) == Count(t.rows, site, kind)
              && Count(t'.sent, site, kind) == Count(t.sent, site, kind)
              && (AtMostOneOpen(t.rows, site, kind) ==> AtMostOneOpen(t'.rows, site, kind))
              && (HasOpen(t.rows, site, kind) <==> HasOpen(t'.rows, site, kind))
              && forall c: Check | c.site == site && Fresh(t.rows, c, kind) :: Fresh(t'.rows, c, kind)
  {
    hide Count, HasOpen, AtMostOneOpen, Fresh;
    if SameFor(t, t', site, kind) {
      SameKeeps(t, t', site, kind);
    }
  }

  lemma StepEffect(t: Table, c: Check, one: string, site: nat, kind: string)
    requires AtMostOneOpen(t.rows, site, kind)
    ensures var t' := CheckOne(t, c, one);
            && AtMostOneOpen(t'.rows, site, kind)
            && Extends(t.rows, t'.rows)
            && (site != c.site || one != kind ==> SameFor(t, t', site, kind))
            && (site == c.site && one == kind ==> Effect(t, t', c, site, kind))
  {
    hide CheckOne, Active, HasOpen, AtMostOneOpen, Fresh, Count, SameFor, Extends, IsOpen;
    if site == c.site && one == kind {
      OneCheck(t, c, kind);
    } else {
      OtherCheck(t, c, one, site, kind);
      SameCounts(t, CheckOne(t, c, one), site, kind);
    }
  }

  // ---- Whole histories of checks ----

  /** The latest check of a site. */
  function Latest(checks: seq<Check>, site: nat): Option<Check>
    decreases |checks|
  {
    if checks == [] then None
    else if checks[|checks| - 1].site == site then Some(checks[|checks| - 1])
    else Latest(checks[..|checks| - 1], site)
  }

  predicate LastActive(checks: seq<Check>, site: nat, kind: string) {
    var c := Latest(checks, site);
    c.Some? && Active(c.value, kind)
  }

  /** How often the condition went from inactive (or unknown) to active. */
  function RisingEdges(checks: seq<Check>, site: nat, kind: string): nat
    decreases |checks|
  {
    if checks == [] then 0
    else
      var front, c := checks[..|checks| - 1], checks[|checks| - 1];
      RisingEdges(front, site, kind) +
      if c.site == site && Active(c, kind) && !LastActive(front, site, kind) then 1 else 0
  }

  /** For every history of checks: never two open events, open exactly when the latest check of the
      site reports the condition, refreshed by that check, and one event and one webhook per edge. */
  lemma {:induction false} AlertsFollowChecks(checks: seq<Check>, site: nat, kind: string)
    requires IsKind(kind)
    ensures var t := SyncAll(checks);
            && AtMostOneOpen(t.rows, site, kind)
            && (HasOpen(t.rows, site, kind) <==> LastActive(checks, site, kind))
            && (LastActive(checks, site, kind) ==> Fresh(t.rows, Latest(checks, site).value, kind))
            && Count(t.rows, site, kind) == RisingEdges(checks, site, kind)
            && Count(t.sent, site, kind) == RisingEdges(checks, site, kind)
    decreases |checks|
  {
    hide Sync, Active, Fresh, IsKind, IsOpen, AtMostOneOpen, HasOpen, SameFor, Extends;
    if checks == [] {
      NothingOpen(site, kind);
    } else {
      var front, c := checks[..|checks| - 1], checks[|checks| - 1];
      AlertsFollowChecks(front, site, kind);
      SyncEffect(SyncAll(front), c, site, kind);
      SameCounts(SyncAll(front), SyncAll(checks), site, kind);
      LatestOf(checks, site);
    }
  }

  lemma NothingOpen(site: nat, kind: string)
    ensures AtMostOneOpen([], site, kind) && !HasOpen([], site, kind)
  {
  }

  lemma {:induction false} LatestOf(checks: seq<Check>, site: nat)
    ensures Latest(checks, site).Some? ==> Latest(checks, site).value.site == site
    decreases |checks|
  {
    if checks != [] {
      LatestOf(checks[..|checks| - 1], site);
    }
  }

  lemma SyncExtends(t: Table, c: Check)
    ensures Extends(t.rows, Sync(t, c).rows)
  {
    hide CheckOne, Extends;
    var t1 := CheckOne(t, c, SERVICE_DOWN);
    var t2 := CheckOne(t1, c, SSL_EXPIRING);
    var t3 := CheckOne(t2, c, DISK_HIGH);
    OtherCheck(t, c, SERVICE_DOWN, c.site + 1, SERVICE_DOWN);
    OtherCheck(t1, c, SSL_EXPIRING, c.site + 1, SSL_EXPIRING);
    OtherCheck(t2, c, DISK_HIGH, c.site + 1, DISK_HIGH);
    ExtendsTwice(t.rows, t1.rows, t2.rows);
    ExtendsTwice(t.rows, t2.rows, t3.rows);
  }

  /** A resolved event is the same row for ever, whatever checks follow. */
  lemma {:induction false} ResolvedStays(checks: seq<Check>, more: seq<Check>)
    ensures Extends(SyncAll(checks).rows, SyncAll(checks + more).rows)
    decreases |more|
  {
    hide Sync;
    if more == [] {
      assert checks + more == checks;
    } else {
      var front := more[..|more| - 1];
      ResolvedStays(checks, front);
      var all := checks + more;
      assert all[..|all| - 1] == checks + front && all[|all| - 1] == more[|more| - 1];
      SyncExtends(SyncAll(checks + front), more[|more| - 1]);
      ExtendsTwice(SyncAll(checks).rows, SyncAll(checks + front).rows, SyncAll(all).rows);
    }
  }

  // ---- The latest check, spelled out ----

  /** Some event of this type is open for the site, and every such one reads as given. */
  predicate OpenAs(rows: seq<Event>, c: Check, kind: string, severity: string, message: string) {
    && (exists i | 0 <= i < |rows| :: rows[i].site == c.site && rows[i].kind == kind && rows[i].status == Open)
    && (forall i | 0 <= i < |rows| && rows[i].site == c.site && rows[i].kind == kind && rows[i].status == Open ::
          rows[i].severity == severity && rows[i].message == message && rows[i].openedAt == c.at)
  }

  predicate NoneOpen(rows: seq<Event>, c: Check, kind: string) {
    forall i | 0 <= i < |rows| && rows[i].site == c.site && rows[i].kind == kind :: rows[i].status == Resolved
  }

  /** After any history the latest check decides: which of its site's events are open, and how they read. */
  lemma LatestDecides(checks: seq<Check>, c: Check)
    ensures var rows := SyncAll(checks + [c]).rows;
            && (if c.service == "stopped"
                then OpenAs(rows, c, "service_down", "critical", "Runtime service is stopped. " + c.summary)
                else NoneOpen(rows, c, "service_down"))
            && (if c.ssl == "expired" || c.ssl == "expiring"
                then OpenAs(rows, c, "ssl_expiring", "warning", "SSL certificate needs attention. " + c.summary)
                else NoneOpen(rows, c, "ssl_expiring"))
            && (if c.disk >= 85.0
                then OpenAs(rows, c, "disk_high", "critical", "Platform disk usage is " + c.diskText + "%.")
                else NoneOpen(rows, c, "disk_high"))
  {
    hide SyncAll, AtMostOneOpen, Active, Message, Severity;
    LatestOpen(checks, c, "service_down");
    LatestOpen(checks, c, "ssl_expiring");
    LatestOpen(checks, c, "disk_high");
    Literals(c);
  }

  lemma LatestOpen(checks: seq<Check>, c: Check, kind: string)
    requires IsKind(kind)
    ensures var rows := SyncAll(checks + [c]).rows;
            if Active(c, kind) then OpenAs(rows, c, kind, Severity(kind), Message(c, kind)) else NoneOpen(rows, c, kind)
  {
    hide SyncAll, AtMostOneOpen, Active, Message, Severity;
    AlertsFollowChecks(checks + [c], c.site, kind);
    assert (checks + [c])[|checks|] == c;
    assert Latest(checks + [c], c.site) == Some(c);
  }

  lemma Literals(c: Check)
    ensures Active(c, "service_down") <==> c.service == "stopped"
    ensures Active(c, "ssl_expiring") <==> c.ssl == "expired" || c.ssl == "expiring"
    ensures Active(c, "disk_high") <==> c.disk >= 85.0
    ensures Severity("service_down") == "critical" && Severity("ssl_expiring") == "warning" && Severity("disk_high") == "critical"
    ensures Message(c, "service_down") == "Runtime service is stopped. " + c.summary
    ensures Message(c, "ssl_expiring") == "SSL certificate needs attention. " + c.summary
    ensures Message(c, "disk_high") == "Platform disk usage is " + c.diskText + "%."
  {
    KindsDiffer();
  }

  // ---- What is closed, and what is sent ----

  /** A check of some kinds, row by row. */
  predicate Touches(t: Table, t': Table, c: Check, kinds: set<string>) {
    && |t.rows| <= |t'.rows| && t.sent <= t'.sent && t'.rows[|t.rows|..] == t'.sent[|t.sent|..]
    && (forall i | |t.rows| <= i < |t'.rows| :: t'.rows[i].kind in kinds)
    && (forall i | 0 <= i < |t.rows| && t.rows[i] != t'.rows[i] ::
          t.rows[i].kind in kinds && Moved(t.rows[i], t'.rows[i], c))
  }

  /** An event that changed was open; it is resolved at the time of the check, with its text as it was, or still open. */
  predicate Moved(e: Event, e': Event, c: Check) {
    && e.status == Open && e.site == c.site
    && (e'.status == Resolved ==> e' == e.(status := Resolved, closedAt := Some(c.at)))
    && (e'.status == Open ==> e' == e.(severity := e'.severity, message := e'.message, openedAt := c.at))
  }

  lemma CheckTouches(t: Table, c: Check, kind: string)
    ensures Touches(t, CheckOne(t, c, kind), c, {kind})
  {
    hide Active, Message, Severity;
    var t' := CheckOne(t, c, kind);
    if Active(c, kind) && FirstOpen(t.rows, c.site, kind) == |t.rows| {
      assert t'.rows[|t.rows|..] == [t'.rows[|t.rows|]] == t'.sent[|t.sent|..];
    } else {
      assert t'.rows[|t.rows|..] == [] && t'.sent[|t.sent|..] == [];
    }
  }

  /** A whole check: the events it adds are the ones it sends, in order; an event it closes gets its time; and an event
      of another site, a resolved one or one of a type it does not test stays as it is. */
  lemma SyncMoves(t: Table, c: Check)
    ensures var t' := Sync(t, c);
            && |t.rows| <= |t'.rows| && t.sent <= t'.sent && t'.rows[|t.rows|..] == t'.sent[|t.sent|..]
            && (forall i | 0 <= i < |t.rows| && t.rows[i] != t'.rows[i] :: Moved(t.rows[i], t'.rows[i], c))
  {
    hide CheckOne, Moved;
    KindsDiffer();
    var t1 := CheckOne(t, c, SERVICE_DOWN);
    var t2 := CheckOne(t1, c, SSL_EXPIRING);
    CheckTouches(t, c, SERVICE_DOWN);
    CheckTouches(t1, c, SSL_EXPIRING);
    CheckTouches(t2, c, DISK_HIGH);
    TouchesMore(t, t1, t2, c, {SERVICE_DOWN}, SSL_EXPIRING);
    TouchesMore(t, t2, Sync(t, c), c, {SERVICE_DOWN} + {SSL_EXPIRING}, DISK_HIGH);
  }

  lemma TouchesMore(a: Table, b: Table, d: Table, c: Check, kinds: set<string>, kind: string)
    requires Touches(a, b, c, kinds) && Touches(b, d, c, {kind}) && kind !in kinds
    ensures Touches(a, d, c, kinds + {kind})
  {
    forall i | 0 <= i < |a.rows| && a.rows[i] != d.rows[i]
      ensures a.rows[i].kind in kinds + {kind} && Moved(a.rows[i], d.rows[i], c)
    {
      if a.rows[i] != b.rows[i] {
        assert b.rows[i].kind in kinds;
      }
    }
    forall i | |a.rows| <= i < |b.rows| ensures d.rows[i] == b.rows[i] {
      assert b.rows[i].kind in kinds;
    }
    assert d.rows[|a.rows|..] == b.rows[|a.rows|..] + d.rows[|b.rows|..];
    assert d.sent[|a.sent|..] == b.sent[|a.sent|..] + d.sent[|b.sent|..];
  }
}
