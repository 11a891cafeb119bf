/**
 Changes of rows that overlap. The lock of a host keeps its own requests apart, but a PUT or toggle of one host runs on
 while another awaits its push. A push shows the rows as they stood when it was sent. It may be delivered at any later
 time, even after its request has given up on it, or never; delivering it replaces the proxy's maps in one step.
 */
module PushInterleaving {
  import opened DomainSync

  /** How a request stands. `at` is the number of pushes sent when it was undone; Boot marks the first listing. */
  datatype Status = Boot | Pending | Done | Undone(at: nat)

  /** A request with its host and the rows its push shows. */
  datatype Sent = Sent(host: Host, shown: Rows, status: Status)

  /** A request under way: its number, and the row it keeps for undoing. */
  datatype Flight = Flight(request: nat, original: Row)

  /** `last` is the push delivered last. */
  datatype State = State(rows: Rows, maps: Maps, sent: seq<Sent>, delivered: set<nat>, flights: map<Host, Flight>,
                         last: nat)

  datatype Event =
    | Begin(host: Host, row: Row)
    | Deliver(request: nat)
    | Confirm(host: Host)
    | Fail(host: Host, later: int)

  /** The proxy has been told the rows, and nothing is under way. */
  ghost function Start(rows: Rows): State {
    State(rows, Projection(rows), [Sent("", rows, Boot)], {0}, map[], 0)
  }

  ghost function Settle(s: State, host: Host, status: Status): State
    requires host in s.flights && s.flights[host].request < |s.sent|
  {
    var r := s.flights[host].request;
    s.(sent := s.sent[r := s.sent[r].(status := status)], flights := s.flights - {host})
  }

  ghost predicate WellFormed(s: State) {
    && s.last < |s.sent|
    && (forall h :: h in s.flights ==> h in s.rows && s.flights[h].request < |s.sent|)
    && (forall r :: r in s.delivered ==> r < |s.sent|)
  }

  /** One step; a step that cannot be taken changes nothing. */
  ghost function Step(s: State, e: Event): (s': State)
    requires WellFormed(s)
    ensures WellFormed(s')
  {
    match e
    case Begin(host, row) =>
      if host in s.rows && host !in s.flights then
        var rows := s.rows[host := row];
        s.(rows := rows, sent := s.sent + [Sent(host, rows, Pending)],
           flights := s.flights[host := Flight(|s.sent|, s.rows[host])])
      else s
    case Deliver(r) =>
      if r < |s.sent| && r !in s.delivered then
        s.(maps := Projection(s.sent[r].shown), delivered := s.delivered + {r}, last := r)
      else s
    case Confirm(host) =>
      if host in s.flights && s.flights[host].request in s.delivered then Settle(s, host, Done) else s
    case Fail(host, later) =>
      if host in s.flights then
        Settle(s, host, Undone(|s.sent|)).(rows := s.rows[host := s.flights[host].original.(updatedAt := later)])
      else s
  }

  ghost function RunFrom(s: State, events: seq<Event>): (s': State)
    requires WellFormed(s)
    ensures WellFormed(s')
    decreases |events|
  {
    if events == [] then s else RunFrom(Step(s, events[0]), events[1..])
  }

  /** Equal but for the time of the last update. */
  predicate Like(a: Row, b: Row) { a.(updatedAt := 0) == b.(updatedAt := 0) }

  /** A request of a host that has none under way takes effect: its push shows its row beside the other rows as they
      stand, the proxy holds exactly that once the push is delivered, and confirming it leaves the row for good. */
  lemma ConfirmedRequest(s: State, host: Host, row: Row)
    requires WellFormed(s) && host in s.rows && host !in s.flights
    ensures var r := |s.sent|;
            var begun := Step(s, Begin(host, row));
            var shown := Step(begun, Deliver(r));
            var kept := Step(shown, Confirm(host));
            && begun.maps == s.maps && begun.rows == s.rows[host := row] && host in begun.flights
            && shown.maps == Projection(s.rows[host := row]) && shown.rows == begun.rows
            && kept.maps == shown.maps && kept.rows == begun.rows && kept.flights == s.flights && kept.last == r
            && kept.sent == s.sent + [Sent(host, s.rows[host := row], Done)] && kept.delivered == s.delivered + {r}
  {
    var begun := Step(s, Begin(host, row));
    assert (s.sent + [Sent(host, begun.rows, Pending)])[|s.sent| := Sent(host, begun.rows, Done)]
        == s.sent + [Sent(host, begun.rows, Done)];
    assert begun.flights - {host} == s.flights;
  }

  /** A request that fails puts back the row it found, but for the time of the update; its push stays with the proxy if
      it was delivered. */
  lemma FailedRequest(s: State, host: Host, row: Row, delivered: bool, later: int)
    requires WellFormed(s) && host in s.rows && host !in s.flights
    ensures var begun := Step(s, Begin(host, row));
            var sent := if delivered then Step(begun, Deliver(|s.sent|)) else begun;
            var undone := Step(sent, Fail(host, later));
            && undone.rows == s.rows[host := s.rows[host].(updatedAt := later)] && undone.flights == s.flights
            && undone.maps == if delivered then Projection(s.rows[host := row]) else s.maps
  {
    var begun := Step(s, Begin(host, row));
    assert begun.flights - {host} == s.flights;
    assert begun.rows[host := s.rows[host].(updatedAt := later)]
        == s.rows[host := s.rows[host].(updatedAt := later)];
  }

  // ---- What every run keeps ----

  /** A request under way is pending, and its host's row is the one it pushed. */
  ghost predicate FlightOk(s: State, h: Host)
    requires WellFormed(s)
  {
    h in s.flights ==>
      var sent := s.sent[s.flights[h].request];
      sent.host == h && sent.status.Pending? && h in sent.shown && s.rows[h] == sent.shown[h]
  }

  ghost predicate SentOk(s: State, r: nat)
    requires WellFormed(s) && r < |s.sent|
  {
    var sent := s.sent[r];
    && sent.shown.Keys == s.rows.Keys && (r == 0 <==> sent.status.Boot?) && (r > 0 ==> sent.host in s.rows)
    && (sent.status.Pending? ==> sent.host in s.flights && s.flights[sent.host].request == r)
    && (sent.status.Undone? ==> r < sent.status.at <= |s.sent|)
  }

  ghost predicate Sound(s: State) {
    && WellFormed(s) && s.maps == Projection(s.sent[s.last].shown)
    && (forall h :: FlightOk(s, h))
    && (forall r :: 0 <= r < |s.sent| ==> SentOk(s, r))
  }

  lemma StepKeepsFlight(s: State, e: Event, h: Host)
    requires Sound(s)
    ensures FlightOk(Step(s, e), h)
  {
    assert FlightOk(s, h);
    if h in s.flights { assert SentOk(s, s.flights[h].request); }
    if !e.Deliver? { assert FlightOk(s, e.host); }
  }

  lemma StepKeepsSent(s: State, e: Event, r: nat)
    requires Sound(s) && r < |Step(s, e).sent|
    ensures SentOk(Step(s, e), r)
  {
    if r < |s.sent| { assert SentOk(s, r); }
    if !e.Deliver? && e.host in s.flights { assert SentOk(s, s.flights[e.host].request) && FlightOk(s, e.host); }
  }

  lemma StepKeepsSound(s: State, e: Event)
    requires Sound(s)
    ensures Sound(Step(s, e))
  {
    var s' := Step(s, e);
    forall h ensures FlightOk(s', h) { StepKeepsFlight(s, e, h); }
    forall r | 0 <= r < |s'.sent| ensures SentOk(s', r) { StepKeepsSent(s, e, r); }
  }

  // ---- When the last push still shows the rows ----

  /** Since push `p` was sent nothing has changed for good: no later request was kept, and no request under way when it
      was sent has been undone. */
  ghost predicate Undisturbed(s: State, p: nat, r: nat)
    requires r < |s.sent|
  {
    match s.sent[r].status
    case Done => r <= p
    case Undone(at) => r <= p ==> at <= p
    case _ => true
  }

  ghost predicate UndisturbedAt(s: State, p: nat, h: Host) {
    forall r :: 0 <= r < |s.sent| && s.sent[r].host == h ==> Undisturbed(s, p, r)
  }

  /** The row of `h` once the requests begun after push `p` are undone. */
  ghost function Base(s: State, p: nat, h: Host): Row
    requires h in s.rows
  {
    if h in s.flights && s.flights[h].request > p then s.flights[h].original else s.rows[h]
  }

  ghost predicate StillShown(s: State, p: nat, h: Host)
    requires Sound(s)
  {
    p < |s.sent| && h in s.rows && UndisturbedAt(s, p, h) ==>
      SentOk(s, p) && Like(s.sent[p].shown[h], Base(s, p, h))
  }

  ghost predicate Inv(s: State) {
    Sound(s) && forall p, h :: StillShown(s, p, h)
  }

  lemma DisturbanceStays(s: State, e: Event, p: nat, h: Host)
    requires Sound(s) && p < |s.sent| && UndisturbedAt(Step(s, e), p, h)
    ensures UndisturbedAt(s, p, h)
  {
    var s' := Step(s, e);
    if !e.Deliver? { assert FlightOk(s, e.host); }
    forall r | 0 <= r < |s.sent| && s.sent[r].host == h ensures Undisturbed(s, p, r) {
      assert s'.sent[r].host == h && Undisturbed(s', p, r);
    }
  }

  lemma StepKeepsBase(s: State, e: Event, p: nat, h: Host)
    requires Sound(s) && p < |s.sent| && h in s.rows && UndisturbedAt(Step(s, e), p, h)
    ensures Like(Base(s, p, h), Base(Step(s, e), p, h))
  {
    var s' := Step(s, e);
    if h in s.flights { assert FlightOk(s, h) && Undisturbed(s', p, s.flights[h].request); }
    if !e.Deliver? { assert FlightOk(s, e.host); }
  }

  lemma StepKeepsShown(s: State, e: Event, p: nat, h: Host)
    requires Inv(s)
    ensures Sound(Step(s, e)) && StillShown(Step(s, e), p, h)
  {
    var s' := Step(s, e);
    StepKeepsSound(s, e);
    if p < |s'.sent| && h in s'.rows && UndisturbedAt(s', p, h) {
      assert SentOk(s', p);
      if p < |s.sent| {
        assert SentOk(s, p) && StillShown(s, p, h);
        DisturbanceStays(s, e, p, h);
        StepKeepsBase(s, e, p, h);
        if !e.Deliver? { assert FlightOk(s, e.host); }
      }
    }
  }

  lemma StepKeepsInv(s: State, e: Event)
    requires Inv(s)
    ensures Inv(Step(s, e))
  {
    StepKeepsSound(s, e);
    forall p: nat, h ensures StillShown(Step(s, e), p, h) { StepKeepsShown(s, e, p, h); }
  }

  lemma {:induction false} RunKeepsInv(s: State, events: seq<Event>)
    requires Inv(s)
    ensures Inv(RunFrom(s, events))
    decreases |events|
  {
    if events != [] {
      StepKeepsInv(s, events[0]);
      RunKeepsInv(Step(s, events[0]), events[1..]);
    }
  }

  lemma StartKeepsInv(rows: Rows)
    ensures Inv(Start(rows))
  {
    var s := Start(rows);
    assert SentOk(s, 0);
  }

  /** Nothing is under way, and nothing has changed for good since the push delivered last was sent. */
  ghost predicate Calm(s: State) {
    s.flights == map[] && forall r :: 0 <= r < |s.sent| ==> Undisturbed(s, s.last, r)
  }

  ghost predicate Mirrored(s: State) {
    s.maps == Projection(s.rows)
  }

  /** However requests of different hosts overlap, and however their pushes are delayed, lost or overtaken: when the run
      ends calm the proxy mirrors the rows. */
  lemma CalmIsMirrored(rows: Rows, events: seq<Event>)
    ensures var s := RunFrom(Start(rows), events); Calm(s) ==> Mirrored(s)
  {
    var s := RunFrom(Start(rows), events);
    StartKeepsInv(rows);
    RunKeepsInv(Start(rows), events);
    if Calm(s) {
      assert SentOk(s, s.last);
      forall h | h in s.rows ensures Like(s.sent[s.last].shown[h], s.rows[h]) {
        assert StillShown(s, s.last, h);
      }
      SameButUpdatedProjectsAlike(s.sent[s.last].shown, s.rows);
    }
  }

  // ---- When it does not ----

  /** Where a row comes from: the start, or a request of its host. */
  ghost predicate Source(s: State, q: nat, h: Host, row: Row) {
    && q < |s.sent| && h in s.sent[q].shown && Like(row, s.sent[q].shown[h])
    && (s.sent[q].status.Boot? || s.sent[q].host == h)
  }

  /** The row of `h` as it is if the request under way fails. */
  ghost function Settled(s: State, h: Host): Row
    requires h in s.rows
  {
    if h in s.flights then s.flights[h].original else s.rows[h]
  }

  /** That row comes from a request that was kept, no later one of the host was, or from the start. */
  ghost predicate ComesFrom(s: State, h: Host, q: nat)
    requires h in s.rows
  {
    && Source(s, q, h, Settled(s, h)) && (s.sent[q].status.Boot? || s.sent[q].status.Done?)
    && (forall r :: 0 <= r < |s.sent| && s.sent[r].host == h && s.sent[r].status.Done? ==> r <= q)
  }

  ghost predicate SettledComes(s: State, h: Host) {
    h in s.rows ==> exists q: nat :: ComesFrom(s, h, q)
  }

  /** What a push shows of a host comes from a request no later than the push. */
  ghost predicate ShownComes(s: State, p: nat, h: Host) {
    p < |s.sent| && h in s.sent[p].shown ==> exists q: nat :: q <= p && Source(s, q, h, s.sent[p].shown[h])
  }

  /** A push shows what a request under way when it was sent had written. */
  ghost predicate ShowsPending(s: State, r: nat, p: nat) {
    r <= p < |s.sent| && (s.sent[r].status.Pending? || (s.sent[r].status.Undone? && s.sent[r].status.at > p)) ==>
      var h := s.sent[r].host;
      h in s.sent[r].shown && h in s.sent[p].shown && s.sent[p].shown[h] == s.sent[r].shown[h]
  }

  /** The request under way is the latest of its host. */
  ghost predicate FlightIsLatest(s: State, h: Host) {
    h in s.flights ==> forall r :: 0 <= r < |s.sent| && s.sent[r].host == h ==> r <= s.flights[h].request
  }

  ghost predicate Traced(s: State) {
    && Sound(s)
    && (forall h :: FlightIsLatest(s, h))
    && (forall h :: SettledComes(s, h))
    && (forall p: nat, h :: ShownComes(s, p, h))
    && (forall r: nat, p: nat :: ShowsPending(s, r, p))
  }

  lemma SourceStays(s: State, e: Event, q: nat, h: Host, row: Row)
    requires Sound(s) && Source(s, q, h, row)
    ensures Source(Step(s, e), q, h, row)
  {
    if !e.Deliver? { assert FlightOk(s, e.host); }
  }

  lemma StepKeepsSettled(s: State, e: Event, h: Host)
    requires Traced(s)
    ensures SettledComes(Step(s, e), h)
  {
    var s' := Step(s, e);
    if h in s'.rows {
      assert SettledComes(s, h) && FlightIsLatest(s, h) && FlightOk(s, h);
      var q: nat :| ComesFrom(s, h, q);
      SourceStays(s, e, q, h, Settled(s, h));
      if !e.Deliver? { assert FlightOk(s, e.host); }
      if e.Confirm? && e.host == h && h in s.flights && s.flights[h].request in s.delivered {
        assert ComesFrom(s', h, s.flights[h].request);
      } else {
        assert ComesFrom(s', h, q);
      }
    }
  }

  lemma StepKeepsLatest(s: State, e: Event, h: Host)
    requires Traced(s)
    ensures FlightIsLatest(Step(s, e), h)
  {
    assert FlightIsLatest(s, h);
    if !e.Deliver? { assert FlightOk(s, e.host); }
  }

  lemma RowHasSource(s: State, h: Host)
    requires Traced(s) && h in s.rows
    ensures exists q: nat :: Source(s, q, h, s.rows[h])
  {
    if h in s.flights {
      assert FlightOk(s, h);
      assert Source(s, s.flights[h].request, h, s.rows[h]);
    } else {
      assert SettledComes(s, h);
      var q: nat :| ComesFrom(s, h, q);
    }
  }

  lemma StepKeepsShownSource(s: State, e: Event, p: nat, h: Host)
    requires Traced(s)
    ensures ShownComes(Step(s, e), p, h)
  {
    var s' := Step(s, e);
    if p < |s'.sent| && h in s'.sent[p].shown {
      if p < |s.sent| {
        if !e.Deliver? { assert FlightOk(s, e.host); }
        assert ShownComes(s, p, h);
        var q: nat :| q <= p && Source(s, q, h, s.sent[p].shown[h]);
        SourceStays(s, e, q, h, s.sent[p].shown[h]);
      } else if h == e.host {
        assert Source(s', p, h, s'.sent[p].shown[h]);
      } else {
        RowHasSource(s, h);
        var q: nat :| Source(s, q, h, s.rows[h]);
        SourceStays(s, e, q, h, s.rows[h]);
      }
    }
  }

  lemma StepKeepsPending(s: State, e: Event, r: nat, p: nat)
    requires Traced(s)
    ensures ShowsPending(Step(s, e), r, p)
  {
    var s' := Step(s, e);
    if !e.Deliver? { assert FlightOk(s, e.host); }
    assert ShowsPending(s, r, p);
    if r < |s.sent| { assert SentOk(s, r) && FlightOk(s, s.sent[r].host); }
  }

  lemma {:induction false} RunKeepsTraced(s: State, events: seq<Event>)
    requires Traced(s)
    ensures Traced(RunFrom(s, events))
    decreases |events|
  {
    if events != [] {
      var e := events[0];
      StepKeepsSound(s, e);
      forall h ensures SettledComes(Step(s, e), h) && FlightIsLatest(Step(s, e), h) {
        StepKeepsSettled(s, e, h);
        StepKeepsLatest(s, e, h);
      }
      forall p: nat, h ensures ShownComes(Step(s, e), p, h) { StepKeepsShownSource(s, e, p, h); }
      forall r: nat, p: nat ensures ShowsPending(Step(s, e), r, p) { StepKeepsPending(s, e, r, p); }
      RunKeepsTraced(Step(s, e), events[1..]);
    }
  }

  lemma StartIsTraced(rows: Rows)
    ensures Traced(Start(rows))
  {
    var s := Start(rows);
    assert SentOk(s, 0);
    forall h | h in rows ensures SettledComes(s, h) { assert ComesFrom(s, h, 0); }
    forall p: nat, h ensures ShownComes(s, p, h) { if p == 0 && h in rows { assert Source(s, 0, h, rows[h]); } }
  }

  /** Request `r` enables its host with an origin that is not in use at the start. */
  ghost predicate WritesNew(s: State, r: nat)
    requires r < |s.sent| && |s.sent| > 0
  {
    var sent := s.sent[r];
    && sent.host in sent.shown && sent.shown[sent.host].enabled == 1
    && (forall h :: h in s.sent[0].shown ==> s.sent[0].shown[h].origin != sent.shown[sent.host].origin)
  }

  /** And every request writes an origin of its own. */
  ghost predicate Fresh(s: State) {
    && |s.sent| > 0
    && (forall r :: 0 < r < |s.sent| ==> WritesNew(s, r))
    && (forall q, r :: 0 < q < r < |s.sent| && WritesNew(s, q) && WritesNew(s, r) ==>
          s.sent[q].shown[s.sent[q].host].origin != s.sent[r].shown[s.sent[r].host].origin)
  }

  /** Rows from different requests look different at the proxy. */
  lemma DifferentSources(s: State, q: nat, r: nat, h: Host, a: Row, b: Row)
    requires Sound(s) && Fresh(s) && q < r && Source(s, q, h, a) && Source(s, r, h, b)
    ensures b.enabled == 1 && (a.enabled == 1 ==> a.origin != b.origin)
  {
    assert SentOk(s, 0) && SentOk(s, q) && SentOk(s, r) && WritesNew(s, r);
    assert a.(updatedAt := 0).origin == a.origin && b.(updatedAt := 0).enabled == b.enabled;
    if q > 0 { assert WritesNew(s, q); }
  }

  lemma VisiblyDifferent(a: Rows, b: Rows, h: Host)
    requires h in a && h in b && (a[h].enabled == 1 || b[h].enabled == 1)
    requires a[h].enabled == 1 && b[h].enabled == 1 ==> a[h].origin != b[h].origin
    ensures Projection(a) != Projection(b)
  {
    var x, y := OriginsIn(a), OriginsIn(b);
    assert h in x && h in y ==> x[h] != y[h];
    assert h in x || h in y;
  }

  lemma DisturbedIsVisible(s: State, r: nat)
    requires Traced(s) && s.flights == map[] && Fresh(s) && r < |s.sent| && !Undisturbed(s, s.last, r)
    ensures !Mirrored(s)
  {
    var h, shown := s.sent[r].host, s.sent[s.last].shown;
    assert SentOk(s, r) && SentOk(s, s.last) && SettledComes(s, h);
    assert ShownComes(s, s.last, h) && ShowsPending(s, r, s.last);
    var q: nat :| ComesFrom(s, h, q);
    var p: nat :| p <= s.last && Source(s, p, h, shown[h]);
    if s.sent[r].status.Done? {
      DifferentSources(s, p, q, h, shown[h], s.rows[h]);
    } else {
      assert Source(s, r, h, shown[h]);
      if q < r { DifferentSources(s, q, r, h, s.rows[h], shown[h]); }
      else { DifferentSources(s, r, q, h, shown[h], s.rows[h]); }
    }
    VisiblyDifferent(shown, s.rows, h);
  }

  /** Once no request is under way, and if every request wrote an origin of its own, the proxy mirrors the rows if and
      only if nothing changed for good since the push delivered last was sent. */
  lemma MirrorSurvivesExactly(rows: Rows, events: seq<Event>)
    ensures var s := RunFrom(Start(rows), events);
            s.flights == map[] && Fresh(s) ==> (Mirrored(s) <==> Calm(s))
  {
    var s := RunFrom(Start(rows), events);
    CalmIsMirrored(rows, events);
    StartIsTraced(rows);
    RunKeepsTraced(Start(rows), events);
    if s.flights == map[] && Fresh(s) && !Calm(s) {
      var r :| 0 <= r < |s.sent| && !Undisturbed(s, s.last, r);
      DisturbedIsVisible(s, r);
    }
  }

  // ---- Two runs that break the mirror ----

  lemma Run2(s: State, e: Event, f: Event)
    requires WellFormed(s)
    ensures RunFrom(s, [e, f]) == Step(Step(s, e), f)
  {
    assert [e, f][1..] == [f] && [f][1..] == [];
    assert RunFrom(Step(s, e), [f]) == Step(Step(s, e), f);
  }

  lemma {:induction false} RunsCompose(s: State, first: seq<Event>, second: seq<Event>)
    requires WellFormed(s)
    ensures RunFrom(s, first + second) == RunFrom(RunFrom(s, first), second)
    decreases |first|
  {
    if first == [] {
      assert first + second == second;
    } else {
      assert (first + second)[1..] == first[1..] + second;
      RunsCompose(Step(s, first[0]), first[1..], second);
    }
  }

  /** Two requests of different hosts under way, the later push delivered and confirmed. */
  lemma TwoUnderWay(rows: Rows, a: Host, b: Host, a': Row, b': Row)
    requires a in rows && b in rows && a != b
    ensures var both := rows[a := a'][b := b'];
            var s := RunFrom(Start(rows), [Begin(a, a'), Begin(b, b')] + [Deliver(2), Confirm(b)]);
            && s.rows == both && s.maps == Projection(both) && s.flights == map[a := Flight(1, rows[a])]
            && |s.sent| == 3 && s.sent[1] == Sent(a, rows[a := a'], Pending) && s.delivered == {0, 2}
  {
    var start := Start(rows);
    var s1 := Step(start, Begin(a, a'));
    var s2 := Step(s1, Begin(b, b'));
    assert s1.flights == map[a := Flight(1, rows[a])] && s1.sent[1] == Sent(a, rows[a := a'], Pending);
    ConfirmedRequest(s1, b, b');
    Run2(start, Begin(a, a'), Begin(b, b'));
    Run2(s2, Deliver(2), Confirm(b));
    RunsCompose(start, [Begin(a, a'), Begin(b, b')], [Deliver(2), Confirm(b)]);
  }

  lemma LastFails(s: State, a: Host, original: Row, later: int)
    requires WellFormed(s) && s.flights == map[a := Flight(1, original)] && |s.sent| == 3
    ensures var s' := Step(s, Fail(a, later));
            s'.flights == map[] && s'.rows == s.rows[a := original.(updatedAt := later)] && s'.maps == s.maps
  {
    assert s.flights - {a} == map[];
  }

  lemma LeakIsVisible(rows: Rows, a: Host, b: Host, a': Row, b': Row, later: int)
    requires a in rows && a != b
    ensures a'.enabled == 1 && a'.origin != rows[a].origin ==>
              Projection(rows[a := a'][b := b']) != Projection(rows[b := b'][a := rows[a].(updatedAt := later)])
  {
    if a'.enabled == 1 && a'.origin != rows[a].origin {
      VisiblyDifferent(rows[a := a'][b := b'], rows[b := b'][a := rows[a].(updatedAt := later)], a);
    }
  }

  /** The first request fails for real, its push lost: the push of the second had already shown the proxy what is now
      undone. */
  lemma FailedChangeLeaks(rows: Rows, a: Host, b: Host, a': Row, b': Row, later: int)
    requires a in rows && b in rows && a != b
    ensures var events := [Begin(a, a'), Begin(b, b')] + [Deliver(2), Confirm(b)] + [Fail(a, later)];
            var s := RunFrom(Start(rows), events);
            && s.flights == map[] && s.rows == rows[b := b'][a := rows[a].(updatedAt := later)]
            && s.maps == Projection(rows[a := a'][b := b'])
            && (a'.enabled == 1 && a'.origin != rows[a].origin ==> !Mirrored(s))
  {
    TwoUnderWay(rows, a, b, a', b');
    var first := [Begin(a, a'), Begin(b, b')] + [Deliver(2), Confirm(b)];
    var s := RunFrom(Start(rows), first);
    RunsCompose(Start(rows), first, [Fail(a, later)]);
    assert [Fail(a, later)][1..] == [];
    LastFails(s, a, rows[a], later);
    var s' := Step(s, Fail(a, later));
    assert RunFrom(s, [Fail(a, later)]) == s';
    assert s'.rows == rows[b := b'][a := rows[a].(updatedAt := later)];
    LeakIsVisible(rows, a, b, a', b', later);
  }

  /** Both requests succeed, but the first push is delivered after the second: the proxy forgets the second change. */
  lemma OvertakenPushForgets(rows: Rows, a: Host, b: Host, a': Row, b': Row)
    requires a in rows && b in rows && a != b
    ensures var events := [Begin(a, a'), Begin(b, b')] + [Deliver(2), Confirm(b)] + [Deliver(1), Confirm(a)];
            var s := RunFrom(Start(rows), events);
            && s.flights == map[] && s.rows == rows[a := a'][b := b'] && s.maps == Projection(rows[a := a'])
            && (b'.enabled == 1 && b'.origin != rows[b].origin ==> !Mirrored(s))
  {
    TwoUnderWay(rows, a, b, a', b');
    var first := [Begin(a, a'), Begin(b, b')] + [Deliver(2), Confirm(b)];
    var s := RunFrom(Start(rows), first);
    RunsCompose(Start(rows), first, [Deliver(1), Confirm(a)]);
    Run2(s, Deliver(1), Confirm(a));
    assert Step(Step(s, Deliver(1)), Confirm(a)).flights == map[];
    if b'.enabled == 1 && b'.origin != rows[b].origin {
      VisiblyDifferent(rows[a := a'], rows[a := a'][b := b'], b);
    }
  }
}
