/**
 Domain changes. The admin server owns the rows; every change is pushed to the proxy, which replaces its three maps, and
 is undone when the push is not confirmed: it may be lost, or be applied and the confirmation come too late. Requests
 run one after another here; PushInterleaving lets requests of different hosts overlap. Times are seconds; host and
 origin checks are a parameter.
 */
module DomainSync {
  import opened Wrappers
  import opened Text

  type Host = string

  datatype Row = Row(origin: string, enabled: int, description: string, createdAt: int, updatedAt: int,
                     staleIfErrorSecs: Option<int>, coalesceCapacity: Option<nat>)
  type Rows = map<Host, Row>
  type Records = map<Host, seq<string>>   // the rows of a side table, by host

  // ---- The proxy's side ----

  datatype DomainEntry = DomainEntry(host: Host, origin: string, enabled: int, staleIfErrorSecs: Option<int>,
                                     coalesceCapacity: Option<nat>)

  datatype Maps = Maps(domains: map<Host, string>, stale: map<Host, int>, capacities: map<Host, nat>)

  ghost function OriginsIn(rows: Rows): map<Host, string> {
    map h | h in rows && rows[h].enabled == 1 :: rows[h].origin
  }

  ghost function StaleIn(rows: Rows): map<Host, int> {
    map h | h in rows && rows[h].enabled == 1 && rows[h].staleIfErrorSecs.Some? :: rows[h].staleIfErrorSecs.value
  }

  ghost function CapacitiesIn(rows: Rows): map<Host, nat> {
    map h | h in rows && rows[h].enabled == 1 && rows[h].coalesceCapacity.Some? && rows[h].coalesceCapacity.value >= 1
      :: rows[h].coalesceCapacity.value
  }

  /** What the proxy should hold for given rows: one entry per enabled row, and a policy only where the row sets one. */
  ghost function Projection(rows: Rows): Maps {
    Maps(OriginsIn(rows), StaleIn(rows), CapacitiesIn(rows))
  }

  /** Exactly the hosts of the enabled rows, each once, in some order: what `findAll` returns. */
  ghost predicate ListsEnabled(order: seq<Host>, rows: Rows) {
    && (forall h :: h in order <==> h in rows && rows[h].enabled == 1)
    && (forall i, j :: 0 <= i < j < |order| ==> order[i] != order[j])
  }

  function EntryFor(h: Host, row: Row): DomainEntry {
    DomainEntry(h, row.origin, 1, row.staleIfErrorSecs, row.coalesceCapacity)
  }

  /** The payload of a push: `enabled` is not sent, and defaults to 1 at the receiver. */
  function Payload(order: seq<Host>, rows: Rows): (p: seq<DomainEntry>)
    requires forall h :: h in order ==> h in rows
    ensures |p| == |order|
  {
    seq(|order|, i requires 0 <= i < |order| => EntryFor(order[i], rows[order[i]]))
  }

  /** One payload entry's contribution. */
  function Enter(m: Maps, e: DomainEntry): Maps {
    Maps(if e.enabled == 1 then m.domains[e.host := e.origin] else m.domains,
         if e.staleIfErrorSecs.Some? then m.stale[e.host := e.staleIfErrorSecs.value] else m.stale,
         if e.coalesceCapacity.Some? && e.coalesceCapacity.value >= 1
         then m.capacities[e.host := e.coalesceCapacity.value] else m.capacities)
  }

  /** The maps a payload fills, later entries replacing earlier ones. */
  function MapsOf(payload: seq<DomainEntry>): Maps {
    if payload == [] then Maps(map[], map[], map[])
    else Enter(MapsOf(payload[..|payload| - 1]), payload[|payload| - 1])
  }

  class ProxyMaps {
    var domains: map<Host, string>
    var stale: map<Host, int>
    var capacities: map<Host, nat>

    ghost function View(): Maps reads this {
      Maps(domains, stale, capacities)
    }

    constructor ()
      ensures View() == Projection(map[])
    {
      domains, stale, capacities := map[], map[], map[];
    }

    /** POST /domains at the proxy: clear and refill each map. */
    method UpdateDomains(payload: seq<DomainEntry>)
      modifies this
      ensures View() == MapsOf(payload)
    {
      domains := map[];
      for i := 0 to |payload|
        invariant domains == MapsOf(payload[..i]).domains
      {
        assert payload[..i + 1][..i] == payload[..i];
        var entry := payload[i];
        if entry.enabled == 1 { domains := domains[entry.host := entry.origin]; }
      }
      assert payload[..|payload|] == payload;
      stale := map[];
      for i := 0 to |payload|
        invariant domains == MapsOf(payload).domains && stale == MapsOf(payload[..i]).stale
      {
        assert payload[..i + 1][..i] == payload[..i];
        var entry := payload[i];
        if entry.staleIfErrorSecs.Some? { stale := stale[entry.host := entry.staleIfErrorSecs.value]; }
      }
      assert payload[..|payload|] == payload;
      capacities := map[];
      for i := 0 to |payload|
        invariant domains == MapsOf(payload).domains && stale == MapsOf(payload).stale
        invariant capacities == MapsOf(payload[..i]).capacities
      {
        assert payload[..i + 1][..i] == payload[..i];
        var entry := payload[i];
        if entry.coalesceCapacity.Some? && entry.coalesceCapacity.value >= 1 {
          capacities := capacities[entry.host := entry.coalesceCapacity.value];
        }
      }
      assert payload[..|payload|] == payload;
    }
  }

  /** No later entry of the same host enables it. */
  predicate LastEnabled(payload: seq<DomainEntry>, i: nat)
    requires i < |payload|
  {
    payload[i].enabled == 1 && forall j :: i < j < |payload| && payload[j].host == payload[i].host ==>
      payload[j].enabled != 1
  }

  predicate LastStale(payload: seq<DomainEntry>, i: nat)
    requires i < |payload|
  {
    payload[i].staleIfErrorSecs.Some? && forall j :: i < j < |payload| && payload[j].host == payload[i].host ==>
      payload[j].staleIfErrorSecs.None?
  }

  predicate SetsCapacity(e: DomainEntry) {
    e.coalesceCapacity.Some? && e.coalesceCapacity.value >= 1
  }

  predicate LastCapacity(payload: seq<DomainEntry>, i: nat)
    requires i < |payload|
  {
    SetsCapacity(payload[i]) && forall j :: i < j < |payload| && payload[j].host == payload[i].host ==>
      !SetsCapacity(payload[j])
  }

  /** Whatever a payload repeats, each map holds for a host what the last entry that counts says of it: the last enabled
      one its origin, the last with a window that window, the last with a capacity of at least one that capacity. */
  lemma {:induction false} LastEntryWins(payload: seq<DomainEntry>, i: nat)
    requires i < |payload|
    ensures var m, e := MapsOf(payload), payload[i];
            && (LastEnabled(payload, i) ==> e.host in m.domains && m.domains[e.host] == e.origin)
            && (LastStale(payload, i) ==> e.host in m.stale && m.stale[e.host] == e.staleIfErrorSecs.value)
            && (LastCapacity(payload, i) ==>
                  e.host in m.capacities && m.capacities[e.host] == e.coalesceCapacity.value)
  {
    var n := |payload| - 1;
    if i < n {
      LastEntryWins(payload[..n], i);
      assert LastEnabled(payload, i) ==> LastEnabled(payload[..n], i);
      assert LastStale(payload, i) ==> LastStale(payload[..n], i);
      assert LastCapacity(payload, i) ==> LastCapacity(payload[..n], i);
    }
  }

  /** And no host is in a map without such an entry. */
  lemma {:induction false} OnlyEntriesCount(payload: seq<DomainEntry>, h: Host)
    ensures var m := MapsOf(payload);
            && (h in m.domains ==> exists i :: 0 <= i < |payload| && payload[i].host == h && LastEnabled(payload, i))
            && (h in m.stale ==> exists i :: 0 <= i < |payload| && payload[i].host == h && LastStale(payload, i))
            && (h in m.capacities ==>
                  exists i :: 0 <= i < |payload| && payload[i].host == h && LastCapacity(payload, i))
  {
    if payload != [] {
      var n := |payload| - 1;
      var rest, e := payload[..n], payload[n];
      OnlyEntriesCount(rest, h);
      if h in MapsOf(payload).domains {
        if e.host == h && e.enabled == 1 { assert LastEnabled(payload, n); }
        else {
          var i :| 0 <= i < n && rest[i].host == h && LastEnabled(rest, i);
          assert LastEnabled(payload, i) && payload[i].host == h;
        }
      }
      if h in MapsOf(payload).stale {
        if e.host == h && e.staleIfErrorSecs.Some? { assert LastStale(payload, n); }
        else {
          var i :| 0 <= i < n && rest[i].host == h && LastStale(rest, i);
          assert LastStale(payload, i) && payload[i].host == h;
        }
      }
      if h in MapsOf(payload).capacities {
        if e.host == h && SetsCapacity(e) { assert LastCapacity(payload, n); }
        else {
          var i :| 0 <= i < n && rest[i].host == h && LastCapacity(rest, i);
          assert LastCapacity(payload, i) && payload[i].host == h;
        }
      }
    }
  }

  lemma OriginsGrow(rows: Rows, h: Host, row: Row)
    requires h !in rows && row.enabled == 1
    ensures OriginsIn(rows[h := row]) == OriginsIn(rows)[h := row.origin]
  {}

  lemma StaleGrows(rows: Rows, h: Host, row: Row)
    requires h !in rows && row.enabled == 1
    ensures StaleIn(rows[h := row]) ==
            if row.staleIfErrorSecs.Some? then StaleIn(rows)[h := row.staleIfErrorSecs.value] else StaleIn(rows)
  {}

  lemma CapacitiesGrow(rows: Rows, h: Host, row: Row)
    requires h !in rows && row.enabled == 1
    ensures CapacitiesIn(rows[h := row]) ==
            if row.coalesceCapacity.Some? && row.coalesceCapacity.value >= 1
            then CapacitiesIn(rows)[h := row.coalesceCapacity.value] else CapacitiesIn(rows)
  {}

  lemma ProjectionGrows(rows: Rows, h: Host, row: Row)
    requires h !in rows && row.enabled == 1
    ensures Projection(rows[h := row]) == Enter(Projection(rows), EntryFor(h, row))
  {
    OriginsGrow(rows, h, row);
    StaleGrows(rows, h, row);
    CapacitiesGrow(rows, h, row);
  }

  /** The rows among the first `i` listed hosts. */
  ghost function Listed(order: seq<Host>, rows: Rows, i: nat): Rows
    requires i <= |order|
  {
    map h | h in rows && h in order[..i] :: rows[h]
  }

  lemma ListedGrows(order: seq<Host>, rows: Rows, i: nat)
    requires ListsEnabled(order, rows) && i < |order|
    ensures var h := order[i];
            && h in rows && rows[h].enabled == 1 && h !in Listed(order, rows, i)
            && Listed(order, rows, i + 1) == Listed(order, rows, i)[h := rows[h]]
            && Payload(order, rows)[..i + 1] == Payload(order, rows)[..i] + [EntryFor(h, rows[h])]
  {
    var h := order[i];
    assert h in order;
    assert order[..i + 1] == order[..i] + [h] && h !in order[..i];
  }

  lemma MapsOfAppend(payload: seq<DomainEntry>, e: DomainEntry)
    ensures MapsOf(payload + [e]) == Enter(MapsOf(payload), e)
  {
    assert (payload + [e])[..|payload|] == payload;
  }

  lemma {:induction false} PayloadPrefix(order: seq<Host>, rows: Rows, i: nat)
    requires ListsEnabled(order, rows) && i <= |order|
    ensures MapsOf(Payload(order, rows)[..i]) == Projection(Listed(order, rows, i))
  {
    if i == 0 {
      assert Listed(order, rows, 0) == map[];
    } else {
      var h := order[i - 1];
      PayloadPrefix(order, rows, i - 1);
      ListedGrows(order, rows, i - 1);
      MapsOfAppend(Payload(order, rows)[..i - 1], EntryFor(h, rows[h]));
      ProjectionGrows(Listed(order, rows, i - 1), h, rows[h]);
    }
  }

  lemma EnabledRowsSuffice(listed: Rows, rows: Rows)
    requires listed == map h | h in rows && rows[h].enabled == 1 :: rows[h]
    ensures Projection(listed) == Projection(rows)
  {
    assert Projection(listed).domains == Projection(rows).domains;
    assert Projection(listed).stale == Projection(rows).stale;
    assert Projection(listed).capacities == Projection(rows).capacities;
  }

  /** In whatever order the enabled rows are listed, pushing them makes the proxy's maps their projection. */
  lemma PushProjects(order: seq<Host>, rows: Rows)
    requires ListsEnabled(order, rows)
    ensures MapsOf(Payload(order, rows)) == Projection(rows)
  {
    PayloadPrefix(order, rows, |order|);
    assert Payload(order, rows)[..|order|] == Payload(order, rows);
    assert order[..|order|] == order;
    EnabledRowsSuffice(Listed(order, rows, |order|), rows);
  }

  // ---- The repository ----

  /** A partial update: an absent field is left alone, a policy may be set to null. */
  datatype Patch = Patch(origin: Option<string>, enabled: Option<int>, description: Option<string>,
                         staleIfErrorSecs: Option<Option<int>>, coalesceCapacity: Option<Option<nat>>)

  const NO_CHANGE := Patch(None, None, None, None, None)

  function Or<T>(change: Option<T>, was: T): T {
    if change.Some? then change.value else was
  }

  function Patched(row: Row, p: Patch, now: int): Row {
    if p == NO_CHANGE then row
    else Row(Or(p.origin, row.origin), Or(p.enabled, row.enabled), Or(p.description, row.description), row.createdAt,
             now, Or(p.staleIfErrorSecs, row.staleIfErrorSecs), Or(p.coalesceCapacity, row.coalesceCapacity))
  }

  function Upserted(rows: Rows, host: Host, origin: string, description: string, now: int): Rows {
    if host in rows then
      rows[host := rows[host].(origin := origin, description := description, updatedAt := now)]
    else rows[host := Row(origin, 1, description, now, now, None, None)]
  }

  function Toggled(row: Row, now: int): Row {
    row.(enabled := if row.enabled == 1 then 0 else 1, updatedAt := now)
  }

  // ---- Requests ----

  datatype Request =
    | Post(host: Host, origin: string)
    | Put(host: Host, patch: Patch)
    | Toggle(host: Host)
    | Delete(host: Host)
    | BulkDelete(hosts: seq<Host>)

  /** The host pattern, the origin check and the origin normal form. */
  datatype Checks = Checks(hostOk: string -> bool, originOk: string -> bool, normalizeOrigin: string -> string)

  /** The database: the domains, their statistics, which a deleted row takes along, and their optimization events. */
  datatype Db = Db(rows: Rows, stats: Records, events: Records)

  /** The database and the maps at the proxy. */
  datatype Sys = Sys(db: Db, maps: Maps)

  predicate PatchOk(c: Checks, p: Patch) {
    && (p.origin.Some? ==> Trim(p.origin.value) != "" && c.originOk(p.origin.value))
    && (p.enabled.Some? ==> p.enabled.value == 0 || p.enabled.value == 1)
    && (p.description.Some? ==> |p.description.value| <= 500)
    && (p.coalesceCapacity.Some? && p.coalesceCapacity.value.Some? ==> 1 <= p.coalesceCapacity.value.value <= 65536)
    && (p.staleIfErrorSecs.Some? && p.staleIfErrorSecs.value.Some? ==> 0 <= p.staleIfErrorSecs.value.value <= 7 * 86400)
  }

  function Normalized(c: Checks, p: Patch): Patch {
    if p.origin.Some? then p.(origin := Some(c.normalizeOrigin(p.origin.value))) else p
  }

  /** The rows a request wants and the hosts that lose their records, or the status it is turned away with. */
  datatype Plan = Refuse(status: nat) | Change(rows: Rows, gone: set<Host>, success: nat)

  function PlanFor(c: Checks, rows: Rows, r: Request, now: int): Plan {
    match r
    case Post(host, origin) =>
      if host == "" || origin == "" || !c.hostOk(host) || !c.originOk(origin) then Refuse(400)
      else Change(Upserted(rows, host, c.normalizeOrigin(origin), "", now), {}, 201)
    case Put(host, patch) =>
      if !PatchOk(c, patch) then Refuse(400)
      else if host !in rows then Refuse(404)
      else Change(rows[host := Patched(rows[host], Normalized(c, patch), now)], {}, 200)
    case Toggle(host) =>
      if host !in rows then Refuse(404) else Change(rows[host := Toggled(rows[host], now)], {}, 200)
    case Delete(host) =>
      if host !in rows then Refuse(404) else Change(rows - {host}, {host}, 204)
    case BulkDelete(hosts) =>
      if hosts == [] then Refuse(400) else Change(rows - (set h | h in hosts), set h | h in hosts, 200)
  }

  /** What a failed push leaves: the old rows, except that a compensating update stamps the row it restores. */
  function Compensated(rows: Rows, r: Request, later: int): Rows {
    match r
    case Put(host, _) => if host in rows then rows[host := rows[host].(updatedAt := later)] else rows
    case Toggle(host) => if host in rows then rows[host := rows[host].(updatedAt := later)] else rows
    case _ => rows
  }

  /** How a push ends: applied and confirmed, lost, or applied although the confirmation comes too late. */
  datatype Push = Confirmed | Lost | Unconfirmed

  /** One request from start to finish. */
  ghost function Handle(c: Checks, s: Sys, r: Request, push: Push, now: int, later: int): (Sys, nat) {
    match PlanFor(c, s.db.rows, r, now)
    case Refuse(status) => (s, status)
    case Change(rows, gone, success) =>
      if push.Confirmed? then (Sys(Db(rows, s.db.stats - gone, s.db.events - gone), Projection(rows)), success)
      else
        (Sys(s.db.(rows := Compensated(s.db.rows, r, later)), if push.Lost? then s.maps else Projection(rows)), 502)
  }

  /** Rows that differ at most in when they were last updated. */
  ghost predicate SameButUpdated(a: Rows, b: Rows) {
    a.Keys == b.Keys && forall h :: h in a ==> a[h].(updatedAt := 0) == b[h].(updatedAt := 0)
  }

  lemma SameButUpdatedProjectsAlike(a: Rows, b: Rows)
    ensures SameButUpdated(a, b) ==> Projection(a) == Projection(b)
  {
    if SameButUpdated(a, b) {
      forall h | h in a
        ensures a[h].enabled == b[h].enabled && a[h].origin == b[h].origin
        ensures a[h].staleIfErrorSecs == b[h].staleIfErrorSecs && a[h].coalesceCapacity == b[h].coalesceCapacity
      {
        assert a[h].(updatedAt := 0) == b[h].(updatedAt := 0);
      }
      assert OriginsIn(a) == OriginsIn(b);
      assert StaleIn(a) == StaleIn(b);
      assert CapacitiesIn(a) == CapacitiesIn(b);
    }
  }

  /** A request that does not succeed leaves every record alone and restores every row, except for `updated_at` on PUT
      and toggle; and it leaves the proxy alone unless its push was applied unconfirmed. */
  lemma FailureRestores(c: Checks, s: Sys, r: Request, push: Push, now: int, later: int)
    ensures var (s', status) := Handle(c, s, r, push, now, later);
            status >= 400 ==>
              && s'.db == s.db.(rows := s'.db.rows) && SameButUpdated(s.db.rows, s'.db.rows)
              && (status != 502 || r.Post? || r.Delete? || r.BulkDelete? ==> s'.db == s.db)
              && (status != 502 || !push.Unconfirmed? ==> s'.maps == s.maps)
  {}

  /** The proxy's maps are the projection of the enabled rows. */
  ghost predicate Mirrored(s: Sys) {
    s.maps == Projection(s.db.rows)
  }

  /** A request, with what becomes of its push and its times. */
  datatype Call = Call(request: Request, push: Push, now: int, later: int)

  /** What a request tells the proxy: nothing, if it is turned away or its push is lost; something that is then undone;
      or the truth. */
  datatype Word = Silence | Untruth | Truth

  ghost function WordOf(c: Checks, s: Sys, call: Call): Word {
    match PlanFor(c, s.db.rows, call.request, call.now)
    case Refuse(_) => Silence
    case Change(rows, _, _) =>
      match call.push
      case Lost => Silence
      case Confirmed => Truth
      case Unconfirmed => if Projection(rows) == Projection(s.db.rows) then Truth else Untruth
  }

  ghost function After(c: Checks, s: Sys, call: Call): Sys {
    Handle(c, s, call.request, call.push, call.now, call.later).0
  }

  /** Whether the mirror holds once the proxy has been told `word`, given whether it held before. */
  predicate Holds(before: bool, word: Word) {
    word.Truth? || (word.Silence? && before)
  }

  lemma MirrorAfterRequest(c: Checks, s: Sys, call: Call)
    ensures Mirrored(After(c, s, call)) <==> Holds(Mirrored(s), WordOf(c, s, call))
  {
    SameButUpdatedProjectsAlike(s.db.rows, Compensated(s.db.rows, call.request, call.later));
  }

  /** A serialised run of requests. */
  ghost function RunFrom(c: Checks, s: Sys, calls: seq<Call>): Sys {
    if calls == [] then s else After(c, RunFrom(c, s, calls[..|calls| - 1]), calls[|calls| - 1])
  }

  /** What each request of a run tells the proxy. */
  ghost function Words(c: Checks, s: Sys, calls: seq<Call>): seq<Word> {
    if calls == [] then []
    else
      var front := calls[..|calls| - 1];
      Words(c, s, front) + [WordOf(c, RunFrom(c, s, front), calls[|calls| - 1])]
  }

  /** The last thing the proxy was told, if anything, is true: every untruth is followed by a truth. */
  ghost predicate LastIsTrue(words: seq<Word>) {
    forall i :: 0 <= i < |words| && words[i].Untruth? ==> exists j :: i < j < |words| && words[j].Truth?
  }

  lemma LastIsTrueAppend(words: seq<Word>, word: Word)
    ensures LastIsTrue(words + [word]) <==> Holds(LastIsTrue(words), word)
  {
    var all, n := words + [word], |words|;
    if word.Truth? {
      assert all[n].Truth?;
    } else if word.Untruth? {
      assert all[n].Untruth?;
    } else {
      forall i | 0 <= i < n && words[i].Untruth?
        ensures (exists j :: i < j <= n && all[j].Truth?) <==> exists j :: i < j < n && words[j].Truth?
      {
        if j :| i < j <= n && all[j].Truth? { assert words[j].Truth?; }
        if j :| i < j < n && words[j].Truth? { assert all[j].Truth?; }
      }
      assert forall i :: 0 <= i < n ==> all[i] == words[i];
    }
  }

  /** After any serialised run the proxy mirrors the rows if and only if the last thing it was told is true: that push
      was confirmed, or showed nothing that was then undone. The next confirmed push thus restores the mirror. */
  lemma {:induction false} MirrorHoldsExactly(c: Checks, s: Sys, calls: seq<Call>)
    requires Mirrored(s)
    ensures Mirrored(RunFrom(c, s, calls)) <==> LastIsTrue(Words(c, s, calls))
  {
    if calls != [] {
      var front := calls[..|calls| - 1];
      var before, call := RunFrom(c, s, front), calls[|calls| - 1];
      MirrorHoldsExactly(c, s, front);
      MirrorAfterRequest(c, before, call);
      LastIsTrueAppend(Words(c, s, front), WordOf(c, before, call));
    }
  }

  lemma {:induction false} NoUntruth(c: Checks, s: Sys, calls: seq<Call>)
    requires forall i :: 0 <= i < |calls| ==> !calls[i].push.Unconfirmed?
    ensures forall i :: 0 <= i < |Words(c, s, calls)| ==> !Words(c, s, calls)[i].Untruth?
  {
    if calls != [] {
      NoUntruth(c, s, calls[..|calls| - 1]);
      assert !calls[|calls| - 1].push.Unconfirmed?;
    }
  }

  /** Over any serialised run in which reported failures are real, the mirror always holds. */
  lemma ProxyMirrorsRows(c: Checks, s: Sys, calls: seq<Call>)
    requires Mirrored(s) && forall i :: 0 <= i < |calls| ==> !calls[i].push.Unconfirmed?
    ensures Mirrored(RunFrom(c, s, calls))
  {
    NoUntruth(c, s, calls);
    MirrorHoldsExactly(c, s, calls);
  }

  // ---- The server ----

  /** Where a host first occurs in a request. */
  ghost function FirstAt(hosts: seq<Host>, h: Host): nat
    requires h in hosts
  {
    if hosts[0] == h then 0 else 1 + FirstAt(hosts[1..], h)
  }

  lemma {:induction false} FirstAtIs(hosts: seq<Host>, i: nat)
    requires i < |hosts| && hosts[i] !in hosts[..i]
    ensures FirstAt(hosts, hosts[i]) == i
  {
    if i > 0 {
      assert hosts[0] in hosts[..i];
      assert hosts[1..][..i - 1] == hosts[1..i];
      assert forall h :: h in hosts[1..i] ==> h in hosts[..i];
      FirstAtIs(hosts[1..], i - 1);
    }
  }

  method MissingFrom(hosts: seq<Host>, present: set<Host>) returns (missing: seq<Host>)
    ensures forall h :: h in missing <==> h in hosts && h !in present
    ensures forall a, b :: 0 <= a < b < |missing| ==> FirstAt(hosts, missing[a]) < FirstAt(hosts, missing[b])
  {
    missing := [];
    for i := 0 to |hosts|
      invariant forall h :: h in missing <==> h in hosts[..i] && h !in present
      invariant forall h :: h in missing ==> h in hosts && FirstAt(hosts, h) < i
      invariant forall a, b :: 0 <= a < b < |missing| ==> FirstAt(hosts, missing[a]) < FirstAt(hosts, missing[b])
    {
      if hosts[i] !in present && hosts[i] !in missing {
        FirstAtIs(hosts, i);
        missing := missing + [hosts[i]];
      }
    }
  }

  class DomainServer {
    var rows: Rows
    var stats: Records
    var events: Records
    var saved: Option<Db>   // the database at BEGIN, while a transaction is open
    const proxy: ProxyMaps
    const checks: Checks
    const findEnabled: Rows -> seq<Host>   // the order in which a query lists the enabled rows

    ghost predicate Valid() reads this {
      saved.None? && forall r: Rows :: ListsEnabled(findEnabled(r), r)
    }

    ghost function View(): Sys reads this, proxy {
      Sys(Db(rows, stats, events), proxy.View())
    }

    constructor (proxy: ProxyMaps, checks: Checks, findEnabled: Rows -> seq<Host>)
      requires forall r: Rows :: ListsEnabled(findEnabled(r), r)
      ensures Valid() && rows == map[] && stats == map[] && events == map[]
      ensures this.proxy == proxy && this.checks == checks
    {
      rows, stats, events, saved := map[], map[], map[], None;
      this.proxy, this.checks, this.findEnabled := proxy, checks, findEnabled;
    }

    /** Push the enabled rows, and say whether that was confirmed. */
    method SyncToProxy(push: Push) returns (synced: bool)
      requires forall r: Rows :: ListsEnabled(findEnabled(r), r)
      modifies proxy
      ensures synced == push.Confirmed?
      ensures proxy.View() == if push.Lost? then old(proxy.View()) else Projection(rows)
    {
      var order := findEnabled(rows);
      assert ListsEnabled(order, rows);
      PushProjects(order, rows);
      if !push.Lost? { proxy.UpdateDomains(Payload(order, rows)); }
      synced := push.Confirmed?;
    }

    method Begin()
      requires saved.None?
      modifies this`saved
      ensures saved == Some(Db(rows, stats, events))
    {
      saved := Some(Db(rows, stats, events));
    }

    /** COMMIT or ROLLBACK. */
    method End(commit: bool)
      requires saved.Some?
      modifies this
      ensures saved.None?
      ensures Db(rows, stats, events) == if commit then old(Db(rows, stats, events)) else old(saved).value
    {
      if !commit { rows, stats, events := saved.value.rows, saved.value.stats, saved.value.events; }
      saved := None;
    }

    method Upsert(host: Host, origin: string, description: string, now: int)
      modifies this`rows
      ensures rows == Upserted(old(rows), host, origin, description, now)
      ensures rows - {host} == old(rows) - {host} && host in rows
      ensures host !in old(rows) ==> rows[host] == Row(origin, 1, description, now, now, None, None)
      ensures host in old(rows) ==>
                rows[host] == old(rows)[host].(origin := origin, description := description, updatedAt := now)
    {
      if host in rows {
        rows := rows[host := rows[host].(origin := origin, description := description, updatedAt := now)];
      } else {
        rows := rows[host := Row(origin, 1, description, now, now, None, None)];
      }
    }

    method Update(host: Host, p: Patch, now: int)
      modifies this`rows
      ensures rows == if host in old(rows) then old(rows)[host := Patched(old(rows)[host], p, now)] else old(rows)
      ensures rows.Keys == old(rows).Keys && rows - {host} == old(rows) - {host}
      ensures host in old(rows) ==>
                var was, row := old(rows)[host], rows[host];
                && row.origin == (if p.origin.Some? then p.origin.value else was.origin)
                && row.enabled == (if p.enabled.Some? then p.enabled.value else was.enabled)
                && row.description == (if p.description.Some? then p.description.value else was.description)
                && row.staleIfErrorSecs
                   == (if p.staleIfErrorSecs.Some? then p.staleIfErrorSecs.value else was.staleIfErrorSecs)
                && row.coalesceCapacity
                   == (if p.coalesceCapacity.Some? then p.coalesceCapacity.value else was.coalesceCapacity)
                && row.createdAt == was.createdAt
                && row.updatedAt == (if p == Patch(None, None, None, None, None) then was.updatedAt else now)
    {
      if host !in rows { return; }
      var row := rows[host];
      if p.origin.Some? { row := row.(origin := p.origin.value, updatedAt := now); }
      if p.enabled.Some? { row := row.(enabled := p.enabled.value, updatedAt := now); }
      if p.description.Some? { row := row.(description := p.description.value, updatedAt := now); }
      if p.staleIfErrorSecs.Some? { row := row.(staleIfErrorSecs := p.staleIfErrorSecs.value, updatedAt := now); }
      if p.coalesceCapacity.Some? { row := row.(coalesceCapacity := p.coalesceCapacity.value, updatedAt := now); }
      rows := rows[host := row];
    }

    /** Delete rows; their statistics go with them. */
    method DeleteRows(hosts: set<Host>) returns (deleted: nat)
      modifies this`rows, this`stats
      ensures rows == old(rows) - hosts && stats == old(stats) - hosts && deleted == |old(rows).Keys * hosts|
    {
      deleted := |rows.Keys * hosts|;
      rows, stats := rows - hosts, stats - hosts;
    }

    /** Add a domain, or give an existing one a new origin and an empty description. */
    method HandlePost(host: Host, origin: string, push: Push, now: int, later: int) returns (status: nat)
      requires Valid()
      modifies this, proxy
      ensures Valid() && (View(), status) == Handle(checks, old(View()), Post(host, origin), push, now, later)
      ensures status >= 400 ==> View().db == old(View()).db
      ensures status >= 400 && !(status == 502 && push.Unconfirmed?) ==> proxy.View() == old(proxy.View())
      ensures status == if host == "" || origin == "" || !checks.hostOk(host) || !checks.originOk(origin) then 400
                        else if push.Confirmed? then 201 else 502
      ensures status < 400 ==>
                && proxy.View() == Projection(rows) && stats == old(stats) && events == old(events)
                && rows - {host} == old(rows) - {host} && host in rows
                && rows[host].origin == checks.normalizeOrigin(origin) && rows[host].description == ""
                && rows[host].updatedAt == now
                && (host !in old(rows) ==>
                      && rows[host].enabled == 1 && rows[host].createdAt == now
                      && rows[host].staleIfErrorSecs.None? && rows[host].coalesceCapacity.None?)
                && (host in old(rows) ==>
                      && rows[host].enabled == old(rows)[host].enabled
                      && rows[host].createdAt == old(rows)[host].createdAt
                      && rows[host].staleIfErrorSecs == old(rows)[host].staleIfErrorSecs
                      && rows[host].coalesceCapacity == old(rows)[host].coalesceCapacity)
    {
      if host == "" || origin == "" || !checks.hostOk(host) || !checks.originOk(origin) { return 400; }
      Begin();
      Upsert(host, checks.normalizeOrigin(origin), "", now);
      var synced := SyncToProxy(push);
      End(synced);
      assert stats - {} == stats && events - {} == events;
      return if synced then 201 else 502;
    }

    /** Change the fields a patch names. */
    method HandlePut(host: Host, patch: Patch, push: Push, now: int, later: int) returns (status: nat)
      requires Valid()
      modifies this, proxy
      ensures Valid() && (View(), status) == Handle(checks, old(View()), Put(host, patch), push, now, later)
      ensures stats == old(stats) && events == old(events)
      ensures status == 400 <==>
                || (patch.origin.Some? && (Trim(patch.origin.value) == "" || !checks.originOk(patch.origin.value)))
                || (patch.enabled.Some? && patch.enabled.value != 0 && patch.enabled.value != 1)
                || (patch.description.Some? && |patch.description.value| > 500)
                || (patch.coalesceCapacity.Some? && patch.coalesceCapacity.value.Some?
                    && (patch.coalesceCapacity.value.value < 1 || patch.coalesceCapacity.value.value > 65536))
                || (patch.staleIfErrorSecs.Some? && patch.staleIfErrorSecs.value.Some?
                    && (patch.staleIfErrorSecs.value.value < 0 || patch.staleIfErrorSecs.value.value > 604800))
      ensures status != 400 ==> status == if host !in old(rows) then 404 else if push.Confirmed? then 200 else 502
      ensures status == 400 || status == 404 ==> rows == old(rows)
      ensures status == 502 ==> rows == old(rows)[host := old(rows)[host].(updatedAt := later)]
      ensures status >= 400 && !(status == 502 && push.Unconfirmed?) ==> proxy.View() == old(proxy.View())
      ensures status == 200 ==>
                && proxy.View() == Projection(rows)
                && rows.Keys == old(rows).Keys && rows - {host} == old(rows) - {host}
                && (patch.origin.Some? ==> rows[host].origin == checks.normalizeOrigin(patch.origin.value))
                && (patch.origin.None? ==> rows[host].origin == old(rows)[host].origin)
                && (patch.enabled.Some? ==> rows[host].enabled == patch.enabled.value)
                && (patch.enabled.None? ==> rows[host].enabled == old(rows)[host].enabled)
                && (patch.description.Some? ==> rows[host].description == patch.description.value)
                && (patch.description.None? ==> rows[host].description == old(rows)[host].description)
                && (patch.staleIfErrorSecs.Some? ==> rows[host].staleIfErrorSecs == patch.staleIfErrorSecs.value)
                && (patch.staleIfErrorSecs.None? ==> rows[host].staleIfErrorSecs == old(rows)[host].staleIfErrorSecs)
                && (patch.coalesceCapacity.Some? ==> rows[host].coalesceCapacity == patch.coalesceCapacity.value)
                && (patch.coalesceCapacity.None? ==> rows[host].coalesceCapacity == old(rows)[host].coalesceCapacity)
                && rows[host].createdAt == old(rows)[host].createdAt
                && rows[host].updatedAt
                   == (if patch == Patch(None, None, None, None, None) then old(rows)[host].updatedAt else now)
    {
      assert stats - {} == stats && events - {} == events;
      if !PatchOk(checks, patch) { return 400; }
      if host !in rows { return 404; }
      var original := rows[host];
      Update(host, Normalized(checks, patch), now);
      var synced := SyncToProxy(push);
      if !synced {
        Update(host, Patch(Some(original.origin), Some(original.enabled), Some(original.description),
                           Some(original.staleIfErrorSecs), Some(original.coalesceCapacity)), later);
        assert rows[host] == original.(updatedAt := later);
        assert rows == old(rows)[host := original.(updatedAt := later)];
        return 502;
      }
      return 200;
    }

    /** Enable a disabled domain, disable an enabled one. */
    method HandleToggle(host: Host, push: Push, now: int, later: int) returns (status: nat)
      requires Valid()
      modifies this, proxy
      ensures Valid() && (View(), status) == Handle(checks, old(View()), Toggle(host), push, now, later)
      ensures status == (if host !in old(rows) then 404 else if push.Confirmed? then 200 else 502)
      ensures stats == old(stats) && events == old(events)
      ensures status == 404 ==> rows == old(rows)
      ensures status == 502 ==> rows == old(rows)[host := old(rows)[host].(updatedAt := later)]
      ensures status >= 400 && !(status == 502 && push.Unconfirmed?) ==> proxy.View() == old(proxy.View())
      ensures status == 200 ==>
                && proxy.View() == Projection(rows)
                && rows == old(rows)[host := old(rows)[host].(enabled := if old(rows)[host].enabled == 1 then 0 else 1,
                                                              updatedAt := now)]
                && (host in proxy.domains <==> old(rows)[host].enabled != 1)
    {
      assert stats - {} == stats && events - {} == events;
      if host !in rows { return 404; }
      var original := rows[host];
      rows := rows[host := Toggled(original, now)];
      var synced := SyncToProxy(push);
      if !synced {
        Update(host, NO_CHANGE.(enabled := Some(original.enabled)), later);
        assert rows[host] == original.(updatedAt := later);
        assert rows == old(rows)[host := original.(updatedAt := later)];
        return 502;
      }
      return 200;
    }

    /** Delete a domain with its statistics and events. */
    method HandleDelete(host: Host, push: Push, now: int, later: int) returns (status: nat)
      requires Valid()
      modifies this, proxy
      ensures Valid() && (View(), status) == Handle(checks, old(View()), Delete(host), push, now, later)
      ensures status == (if host !in old(rows) then 404 else if push.Confirmed? then 204 else 502)
      ensures status >= 400 ==> View().db == old(View()).db
      ensures status >= 400 && !(status == 502 && push.Unconfirmed?) ==> proxy.View() == old(proxy.View())
      ensures status == 204 ==>
                && rows == old(rows) - {host} && stats == old(stats) - {host} && events == old(events) - {host}
                && proxy.View() == Projection(rows) && host !in proxy.domains
    {
      if host !in rows { return 404; }
      Begin();
      var deleted := DeleteRows({host});
      var synced := SyncToProxy(push);
      End(synced);
      if !synced { return 502; }
      events := events - {host};
      return 204;
    }

    /** Delete several domains with their statistics and events. Also reports how many rows went, and which requested
        hosts were not there, each once and in the order of the request. */
    method HandleBulkDelete(hosts: seq<Host>, push: Push, now: int, later: int)
      returns (status: nat, deleted: nat, missing: seq<Host>)
      requires Valid()
      modifies this, proxy
      ensures Valid() && (View(), status) == Handle(checks, old(View()), BulkDelete(hosts), push, now, later)
      ensures status == (if hosts == [] then 400 else if push.Confirmed? then 200 else 502)
      ensures status >= 400 ==> View().db == old(View()).db
      ensures status >= 400 && !(status == 502 && push.Unconfirmed?) ==> proxy.View() == old(proxy.View())
      ensures status == 200 ==>
                var gone := set h | h in hosts;
                && rows == old(rows) - gone && stats == old(stats) - gone && events == old(events) - gone
                && proxy.View() == Projection(rows) && proxy.domains.Keys !! gone
      ensures deleted == |set h | h in old(rows) && h in hosts|
      ensures forall h :: h in missing <==> h in hosts && h !in old(rows)
      ensures forall a, b :: 0 <= a < b < |missing| ==> FirstAt(hosts, missing[a]) < FirstAt(hosts, missing[b])
    {
      if hosts == [] {
        assert (set h | h in rows && h in hosts) == {};
        return 400, 0, [];
      }
      var requested := set h | h in hosts;
      assert rows.Keys * requested == set h | h in rows && h in hosts;
      missing := MissingFrom(hosts, rows.Keys);
      Begin();
      deleted := DeleteRows(requested);
      events := events - requested;
      var synced := SyncToProxy(push);
      End(synced);
      status := if synced then 200 else 502;
    }
  }
}
