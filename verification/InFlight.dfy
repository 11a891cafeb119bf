/**
 The in-flight memory guard of the proxy, together with the semaphore that admits origin fetches. Reservation is a
 compare-and-swap loop, so its load and its swap are separate steps and other tasks run in between. The counter is a
 64-bit atomic whose arithmetic wraps.
 */
module InFlightMemory {
  import opened MapSum

  type TaskId = nat

  const WORD: nat := 0x1_0000_0000_0000_0000
  type Word = n: nat | n < WORD

  /** Where a fetch is. It holds a permit in every phase. `excess` is history: how far later corrections have pushed
      the reservation up, net of corrections down. */
  datatype Fetch =
    | Admitted
    | Reserving(want: Word)
    | Loaded(want: Word, seen: Word)
    | Guarded(reserved: Word, excess: nat)

  /** `largest` is history: the largest amount ever reserved at once. */
  datatype State = State(counter: Word, limit: Word, permits: nat, fetches: map<TaskId, Fetch>, largest: nat)

  datatype Event =
    | Acquire(task: TaskId)
    | Want(task: TaskId, want: Word)
    | Load(task: TaskId)
    | Swap(task: TaskId, spurious: bool)
    | Reconcile(task: TaskId, actual: Word)
    | DropGuard(task: TaskId)
    | Release(task: TaskId)

  function Wrap(n: int): Word { n % WORD }

  function SaturatingAdd(a: Word, b: Word): Word { if a + b < WORD then a + b else WORD - 1 }

  /** The test on the loaded value: a non-empty buffer refuses what would pass the limit. */
  predicate Refuses(seen: Word, want: Word, limit: Word) {
    seen > 0 && SaturatingAdd(seen, want) > limit
  }

  function Minus(a: nat, b: nat): nat { if a > b then a - b else 0 }

  /** One atomic step of one task; a step its task cannot take changes nothing. */
  function Step(s: State, e: Event): State {
    var t := e.task;
    match e
    case Acquire(_) =>
      if t !in s.fetches && |s.fetches| < s.permits then s.(fetches := s.fetches[t := Admitted]) else s
    case Want(_, want) =>
      if t in s.fetches && s.fetches[t].Admitted? then s.(fetches := s.fetches[t := Reserving(want)]) else s
    case Load(_) =>
      if t in s.fetches && s.fetches[t].Reserving? then
        var want := s.fetches[t].want;
        s.(fetches := s.fetches[t := if Refuses(s.counter, want, s.limit) then Admitted else Loaded(want, s.counter)])
      else s
    case Swap(_, spurious) =>
      if t in s.fetches && s.fetches[t].Loaded? then
        var l := s.fetches[t];
        if s.counter == l.seen && !spurious then
          s.(counter := Wrap(l.seen + l.want), fetches := s.fetches[t := Guarded(l.want, 0)],
             largest := if s.largest < l.want then l.want else s.largest)
        else s.(fetches := s.fetches[t := Reserving(l.want)])
      else s
    case Reconcile(_, actual) =>
      if t in s.fetches && s.fetches[t].Guarded? then
        var g := s.fetches[t];
        if actual > g.reserved then
          s.(counter := Wrap(s.counter + (actual - g.reserved)),
             fetches := s.fetches[t := Guarded(actual, g.excess + (actual - g.reserved))])
        else
          s.(counter := Wrap(s.counter - (g.reserved - actual)),
             fetches := s.fetches[t := Guarded(actual, Minus(g.excess, g.reserved - actual))])
      else s
    case DropGuard(_) =>
      if t in s.fetches && s.fetches[t].Guarded? then
        s.(counter := Wrap(s.counter - s.fetches[t].reserved), fetches := s.fetches[t := Admitted])
      else s
    case Release(_) =>
      if t in s.fetches && s.fetches[t].Admitted? then s.(fetches := s.fetches - {t}) else s
  }

  function RunFrom(s: State, events: seq<Event>): State
    decreases |events|
  {
    if events == [] then s else RunFrom(Step(s, events[0]), events[1..])
  }

  function Start(limit: Word, permits: nat): State {
    State(0, limit, permits, map[], 0)
  }

  // ---- What the counter stands for ----

  ghost function ReservedOf(f: Fetch): nat { if f.Guarded? then f.reserved else 0 }
  ghost function ExcessOf(f: Fetch): nat { if f.Guarded? then f.excess else 0 }

  ghost function Reservations(fetches: map<TaskId, Fetch>): map<TaskId, nat> {
    map t | t in fetches :: ReservedOf(fetches[t])
  }

  ghost function Excesses(fetches: map<TaskId, Fetch>): map<TaskId, nat> {
    map t | t in fetches :: ExcessOf(fetches[t])
  }

  /** The sum reserved by live guards. */
  ghost function Reserved(s: State): nat { Sum(Reservations(s.fetches)) }

  /** The sum of the live guards' outstanding upward corrections. */
  ghost function Excess(s: State): nat { Sum(Excesses(s.fetches)) }

  ghost function Guards(s: State): set<TaskId> {
    set t | t in s.fetches && s.fetches[t].Guarded?
  }

  ghost function Bound(s: State): nat {
    (if s.limit < s.largest then s.largest else s.limit) + Excess(s)
  }

  lemma ReservationsAfterUpdate(fetches: map<TaskId, Fetch>, t: TaskId, f: Fetch)
    ensures Sum(Reservations(fetches[t := f])) + ReservedOf(if t in fetches then fetches[t] else Admitted)
         == Sum(Reservations(fetches)) + ReservedOf(f)
  {
    SumUpdate(Reservations(fetches), t, ReservedOf(f));
    assert Reservations(fetches[t := f]) == Reservations(fetches)[t := ReservedOf(f)];
  }

  lemma ExcessesAfterUpdate(fetches: map<TaskId, Fetch>, t: TaskId, f: Fetch)
    ensures Sum(Excesses(fetches[t := f])) + ExcessOf(if t in fetches then fetches[t] else Admitted)
         == Sum(Excesses(fetches)) + ExcessOf(f)
  {
    SumUpdate(Excesses(fetches), t, ExcessOf(f));
    assert Excesses(fetches[t := f]) == Excesses(fetches)[t := ExcessOf(f)];
  }

  lemma SumsAfterUpdate(fetches: map<TaskId, Fetch>, t: TaskId, f: Fetch)
    ensures var was := if t in fetches then fetches[t] else Admitted;
            && Sum(Reservations(fetches[t := f])) + ReservedOf(was) == Sum(Reservations(fetches)) + ReservedOf(f)
            && Sum(Excesses(fetches[t := f])) + ExcessOf(was) == Sum(Excesses(fetches)) + ExcessOf(f)
  {
    ReservationsAfterUpdate(fetches, t, f);
    ExcessesAfterUpdate(fetches, t, f);
  }

  lemma SumsAfterRelease(fetches: map<TaskId, Fetch>, t: TaskId)
    requires t in fetches && fetches[t].Admitted?
    ensures Sum(Reservations(fetches - {t})) == Sum(Reservations(fetches))
    ensures Sum(Excesses(fetches - {t})) == Sum(Excesses(fetches))
  {
    SumRemove(Reservations(fetches), t);
    SumRemove(Excesses(fetches), t);
    assert Reservations(fetches - {t}) == Reservations(fetches) - {t};
    assert Excesses(fetches - {t}) == Excesses(fetches) - {t};
  }

  // ---- The invariant ----

  ghost predicate PhaseOk(s: State, t: TaskId) {
    t in s.fetches ==>
      match s.fetches[t]
      case Loaded(want, seen) => !Refuses(seen, want, s.limit)
      case Guarded(reserved, excess) => excess <= reserved
      case _ => true
  }

  /** The counter is the reserved sum (modulo the word size), and fetches never outnumber permits. */
  ghost predicate Inv(s: State) {
    && s.counter == Wrap(Reserved(s))
    && |s.fetches| <= s.permits
    && (forall t :: PhaseOk(s, t))
  }

  lemma WrapCancels(a: int, d: int)
    ensures Wrap(Wrap(a) + d) == Wrap(a + d)
  {
    var q := a / WORD;
    assert a == q * WORD + Wrap(a);
    assert (Wrap(a) + d + q * WORD) % WORD == (Wrap(a) + d) % WORD;
  }

  /** A step either leaves the fetches alone, moves one of them on, or lets an admitted one go. */
  lemma StepMovesOneFetch(s: State, e: Event)
    ensures var s', t := Step(s, e), e.task;
            || (s'.fetches == s.fetches && s'.counter == s.counter)
            || (t in s'.fetches && s'.fetches == s.fetches[t := s'.fetches[t]])
            || (t in s.fetches && s.fetches[t].Admitted? && s'.fetches == s.fetches - {t} && s'.counter == s.counter)
  {}

  lemma SumsAfterStep(s: State, e: Event)
    ensures var s', t := Step(s, e), e.task;
            var was := if t in s.fetches then s.fetches[t] else Admitted;
            var now := if t in s'.fetches then s'.fetches[t] else Admitted;
            && Reserved(s') + ReservedOf(was) == Reserved(s) + ReservedOf(now)
            && Excess(s') + ExcessOf(was) == Excess(s) + ExcessOf(now)
  {
    var s', t := Step(s, e), e.task;
    StepMovesOneFetch(s, e);
    if t in s'.fetches && s'.fetches == s.fetches[t := s'.fetches[t]] {
      SumsAfterUpdate(s.fetches, t, s'.fetches[t]);
    } else if t in s.fetches && s'.fetches == s.fetches - {t} {
      SumsAfterRelease(s.fetches, t);
    }
  }

  lemma StepKeepsCount(s: State, e: Event)
    requires s.counter == Wrap(Reserved(s))
    ensures Step(s, e).counter == Wrap(Reserved(Step(s, e)))
  {
    var s' := Step(s, e);
    SumsAfterStep(s, e);
    WrapCancels(Reserved(s), Reserved(s') - Reserved(s));
  }

  lemma SubsetIsSmaller(a: set<TaskId>, b: set<TaskId>)
    requires a <= b
    ensures |a| <= |b|
  {
    assert b == a + (b - a);
    assert |b| == |a| + |b - a|;
  }

  lemma StepKeepsInv(s: State, e: Event)
    requires Inv(s)
    ensures Inv(Step(s, e))
  {
    var s', t := Step(s, e), e.task;
    StepKeepsCount(s, e);
    forall u ensures PhaseOk(s', u) { assert PhaseOk(s, u) && PhaseOk(s, t); }
    assert |s'.fetches| <= s'.permits by {
      if t in s.fetches { SubsetIsSmaller(s'.fetches.Keys, s.fetches.Keys); }
    }
  }

  /** Every run keeps the counter equal to the sum of the live reservations, modulo the word size. */
  lemma {:induction false} RunKeepsInv(s: State, events: seq<Event>)
    requires Inv(s)
    ensures Inv(RunFrom(s, events))
    decreases |events|
  {
    if events != [] {
      StepKeepsInv(s, events[0]);
      RunKeepsInv(Step(s, events[0]), events[1..]);
    }
  }

  /** A sum of zeros. */
  lemma {:induction false} SumOfZeros(m: map<TaskId, nat>)
    requires forall t :: t in m ==> m[t] == 0
    ensures Sum(m) == 0
    decreases |m|
  {
    if m != map[] {
      var t :| t in m;
      SumRemove(m, t);
      SumOfZeros(m - {t});
    }
  }

  /** When every guard has been dropped the counter is back at zero, in any run. */
  lemma CounterReturnsToZero(limit: Word, permits: nat, events: seq<Event>)
    ensures var s := RunFrom(Start(limit, permits), events); Guards(s) == {} ==> s.counter == 0
  {
    var s := RunFrom(Start(limit, permits), events);
    RunKeepsInv(Start(limit, permits), events);
    if Guards(s) == {} {
      forall t | t in s.fetches ensures Reservations(s.fetches)[t] == 0 {
        assert t !in Guards(s);
      }
      SumOfZeros(Reservations(s.fetches));
    }
  }

  lemma {:induction false} PermitsAreFixed(s: State, events: seq<Event>)
    ensures RunFrom(s, events).permits == s.permits && RunFrom(s, events).limit == s.limit
    decreases |events|
  {
    if events != [] { PermitsAreFixed(Step(s, events[0]), events[1..]); }
  }

  /** Live guards never outnumber the permits that are out. */
  lemma GuardsNeverOutnumberPermits(limit: Word, permits: nat, events: seq<Event>)
    ensures var s := RunFrom(Start(limit, permits), events); |Guards(s)| <= |s.fetches| <= permits
  {
    var s := RunFrom(Start(limit, permits), events);
    RunKeepsInv(Start(limit, permits), events);
    PermitsAreFixed(Start(limit, permits), events);
    assert Guards(s) <= s.fetches.Keys;
    SubsetIsSmaller(Guards(s), s.fetches.Keys);
  }

  // ---- The memory bound ----

  /** The event asks for at most `m` bytes, or reports at most `m`. */
  predicate Within(e: Event, m: nat) {
    match e
    case Want(_, want) => want <= m
    case Reconcile(_, actual) => actual <= m
    case _ => true
  }

  predicate AllWithin(events: seq<Event>, m: nat) {
    forall i :: 0 <= i < |events| ==> Within(events[i], m)
  }

  function SizeOf(f: Fetch): nat {
    match f
    case Admitted => 0
    case Reserving(want) => want
    case Loaded(want, _) => want
    case Guarded(reserved, _) => reserved
  }

  /** No fetch wants or holds more than `m` bytes, and none ever did. */
  ghost predicate Small(s: State, m: nat) {
    s.largest <= m && forall t :: t in s.fetches ==> SizeOf(s.fetches[t]) <= m
  }

  lemma StepKeepsSmall(s: State, e: Event, m: nat)
    requires Small(s, m) && Within(e, m)
    ensures Small(Step(s, e), m)
  {
    var s', t := Step(s, e), e.task;
    StepMovesOneFetch(s, e);
    forall u | u in s'.fetches ensures SizeOf(s'.fetches[u]) <= m {
      if u == t { assert t in s.fetches ==> SizeOf(s.fetches[t]) <= m; }
    }
  }

  /** n * m as repeated addition, the form in which sums over tasks grow. */
  ghost function Times(n: nat, m: nat): nat {
    if n == 0 then 0 else Times(n - 1, m) + m
  }

  lemma {:induction false} TimesIsProduct(n: nat, m: nat)
    ensures Times(n, m) == n * m
  {
    if n > 0 { TimesIsProduct(n - 1, m); }
  }

  lemma {:induction false} TimesMonotone(a: nat, b: nat, m: nat)
    requires a <= b
    ensures Times(a, m) <= Times(b, m)
  {
    if a < b { TimesMonotone(a, b - 1, m); }
  }

  lemma OneFewer(v: map<TaskId, nat>, t: TaskId)
    requires t in v
    ensures |v - {t}| == |v| - 1
  {
    assert (v - {t}).Keys == v.Keys - {t};
  }

  lemma {:induction false} SumAtMost(v: map<TaskId, nat>, m: nat)
    requires forall t :: t in v ==> v[t] <= m
    ensures Sum(v) <= Times(|v|, m)
    decreases |v|
  {
    if v != map[] {
      var t :| t in v;
      OneFewer(v, t);
      SumRemove(v, t);
      SumAtMost(v - {t}, m);
    }
  }

  /** The reservations are at most `m` bytes for every fetch; counting one that holds no guard yet, at `m`. */
  lemma ReservedAtMost(s: State, n: nat, m: nat)
    requires Small(s, m) && |s.fetches| == n
    ensures Reserved(s) <= Times(n, m)
    ensures forall t :: t in s.fetches && !s.fetches[t].Guarded? ==> Reserved(s) + m <= Times(n, m)
  {
    var r := Reservations(s.fetches);
    assert r.Keys == s.fetches.Keys;
    forall t | t in r ensures r[t] <= m { assert SizeOf(s.fetches[t]) <= m; }
    SumAtMost(r, m);
    forall t | t in s.fetches && !s.fetches[t].Guarded? ensures Reserved(s) + m <= Times(n, m) {
      SumRemove(r, t);
      OneFewer(r, t);
      SumAtMost(r - {t}, m);
    }
  }

  /** The reservations fit a word if no fetch exceeds `m` and even `m` for every permit does; so does one more. */
  lemma SmallFits(s: State, m: nat)
    requires Inv(s) && Small(s, m) && s.permits * m < WORD
    ensures s.counter == Reserved(s) < WORD
    ensures forall t :: t in s.fetches && s.fetches[t].Loaded? ==> Reserved(s) + s.fetches[t].want < WORD
  {
    var n := |s.fetches|;
    ReservedAtMost(s, n, m);
    TimesMonotone(n, s.permits, m);
    TimesIsProduct(s.permits, m);
    assert forall t :: t in s.fetches ==> SizeOf(s.fetches[t]) <= m;
  }

  /** While the counter is exact a step keeps the bound, unless the test saturates and still passes. */
  lemma StepKeepsBound(s: State, e: Event)
    requires Inv(s) && s.counter == Reserved(s) <= Bound(s)
    requires s.limit < WORD - 1 ||
             (e.task in s.fetches && s.fetches[e.task].Loaded? ==> Reserved(s) + s.fetches[e.task].want < WORD)
    ensures Reserved(Step(s, e)) <= Bound(Step(s, e))
  {
    assert PhaseOk(s, e.task);
    SumsAfterStep(s, e);
  }

  /** Under any interleaving the counter is exactly the reserved sum, and never exceeds the larger of the limit and the
      largest single reservation, plus the live guards' upward corrections. */
  lemma {:induction false} MemoryBound(s: State, events: seq<Event>, m: nat)
    requires Inv(s) && Small(s, m) && Reserved(s) <= Bound(s)
    requires AllWithin(events, m) && s.permits * m < WORD
    ensures var s' := RunFrom(s, events); s'.counter == Reserved(s') <= Bound(s')
    decreases |events|
  {
    SmallFits(s, m);
    if events != [] {
      assert Within(events[0], m);
      StepKeepsInv(s, events[0]);
      StepKeepsSmall(s, events[0], m);
      StepKeepsBound(s, events[0]);
      MemoryBound(Step(s, events[0]), events[1..], m);
    }
  }

  /** The run ends with an exact counter within the bound. */
  ghost predicate EndsBounded(limit: Word, permits: nat, events: seq<Event>) {
    var s := RunFrom(Start(limit, permits), events);
    s.counter == Reserved(s) <= Bound(s)
  }

  // ---- Runs that overflow the counter ----

  lemma {:induction false} RunsCompose(s: State, first: seq<Event>, second: seq<Event>)
    ensures RunFrom(s, first + second) == RunFrom(RunFrom(s, first), second)
    decreases |first|
  {
    if first == [] {
      assert first + second == second;
    } else {
      assert (first + second)[1..] == first[1..] + second;
      RunsCompose(Step(s, first[0]), first[1..], second);
    }
  }

  /** The steps of one fetch that reserves without being disturbed. */
  function Reservation(t: TaskId, want: Word): seq<Event> {
    [Acquire(t), Want(t, want)] + [Load(t), Swap(t, false)]
  }

  /** The state in which that reservation leaves the buffer. */
  function Granted(s: State, t: TaskId, want: Word): State {
    s.(counter := Wrap(s.counter + want), fetches := s.fetches[t := Guarded(want, 0)],
       largest := if s.largest < want then want else s.largest)
  }

  lemma GrantedAdds(s: State, t: TaskId, want: Word)
    requires t !in s.fetches
    ensures Reserved(Granted(s, t, want)) == Reserved(s) + want
    ensures want == 0 ==> Granted(s, t, want).counter == s.counter
  {
    SumsAfterUpdate(s.fetches, t, Guarded(want, 0));
  }

  lemma ReservationSteps(s: State, t: TaskId, want: Word)
    requires t !in s.fetches && |s.fetches| < s.permits && !Refuses(s.counter, want, s.limit)
    ensures Step(s, Acquire(t)) == s.(fetches := s.fetches[t := Admitted])
    ensures Step(s.(fetches := s.fetches[t := Admitted]), Want(t, want)) ==
            s.(fetches := s.fetches[t := Reserving(want)])
    ensures Step(s.(fetches := s.fetches[t := Reserving(want)]), Load(t)) ==
            s.(fetches := s.fetches[t := Loaded(want, s.counter)])
    ensures Step(s.(fetches := s.fetches[t := Loaded(want, s.counter)]), Swap(t, false)) == Granted(s, t, want)
  {
    assert s.fetches[t := Admitted][t := Reserving(want)] == s.fetches[t := Reserving(want)];
    assert s.fetches[t := Reserving(want)][t := Loaded(want, s.counter)] == s.fetches[t := Loaded(want, s.counter)];
    assert s.fetches[t := Loaded(want, s.counter)][t := Guarded(want, 0)] == s.fetches[t := Guarded(want, 0)];
  }

  lemma TwoSteps(s: State, e: Event, f: Event)
    ensures RunFrom(s, [e, f]) == Step(Step(s, e), f)
  {
    assert [e, f][1..] == [f] && [f][1..] == [];
    assert RunFrom(Step(s, e), [f]) == Step(Step(s, e), f);
  }

  /** A reservation that nobody disturbs and that fits goes through. */
  lemma UndisturbedReservation(s: State, t: TaskId, want: Word)
    requires t !in s.fetches && |s.fetches| < s.permits
    requires s.counter == 0 || s.counter + want <= s.limit || s.limit == WORD - 1
    ensures RunFrom(s, Reservation(t, want)) == Granted(s, t, want)
    ensures Granted(s, t, want).fetches == s.fetches[t := Guarded(want, 0)]
    ensures Granted(s, t, want).counter == (s.counter + want) % WORD
  {
    ReservationSteps(s, t, want);
    TwoSteps(s, Acquire(t), Want(t, want));
    TwoSteps(s.(fetches := s.fetches[t := Reserving(want)]), Load(t), Swap(t, false));
    RunsCompose(s, [Acquire(t), Want(t, want)], [Load(t), Swap(t, false)]);
  }

  predicate Uncorrected(events: seq<Event>) {
    forall i :: 0 <= i < |events| ==> !events[i].Reconcile?
  }

  /** The first `n` tasks hold guards: the first `raised` of them corrected from 0 up to `m`, the others as reserved. */
  ghost predicate Holds(s: State, n: nat, w: Word, raised: nat, m: Word) {
    && (forall t: TaskId :: t in s.fetches <==> t < n) && |s.fetches| == n
    && (forall t :: t in s.fetches ==> s.fetches[t] == if t < raised then Guarded(m, m) else Guarded(w, 0))
  }

  lemma FillStep(s: State, n: nat, w: Word)
    requires Holds(s, n, w, 0, 0)
    ensures Holds(Granted(s, n, w), n + 1, w, 0, 0)
  {
    var s' := Granted(s, n, w);
    assert n !in s.fetches;
    assert |s'.fetches| == n + 1 by { assert s'.fetches.Keys == s.fetches.Keys + {n}; }
  }

  lemma ReconcileRaises(s: State, t: TaskId, m: Word)
    requires t in s.fetches && s.fetches[t] == Guarded(0, 0)
    ensures Step(s, Reconcile(t, m)).fetches == s.fetches[t := Guarded(m, m)]
    ensures Reserved(Step(s, Reconcile(t, m))) == Reserved(s) + m
  {
    SumsAfterUpdate(s.fetches, t, Guarded(m, m));
  }

  lemma RaiseStep(s: State, n: nat, raised: nat, m: Word)
    requires Holds(s, n, 0, raised, m) && raised < n
    ensures Holds(Step(s, Reconcile(raised, m)), n, 0, raised + 1, m)
    ensures Reserved(Step(s, Reconcile(raised, m))) == Reserved(s) + m
  {
    ReconcileRaises(s, raised, m);
    assert s.fetches[raised := Guarded(m, m)].Keys == s.fetches.Keys;
  }

  /** Tasks i to n-1 reserve `w` bytes each, one after another. */
  function Filling(i: nat, n: nat, w: Word): seq<Event>
    decreases n - i
  {
    if i >= n then [] else Reservation(i, w) + Filling(i + 1, n, w)
  }

  /** Tasks 0 to n-1 turn out to hold `m` bytes each. */
  function Raising(n: nat, m: Word): seq<Event> {
    if n == 0 then [] else Raising(n - 1, m) + [Reconcile(n - 1, m)]
  }

  lemma OneStep(s: State, e: Event)
    ensures RunFrom(s, [e]) == Step(s, e)
  {}

  lemma RunsNext(s: State, n: nat, w: Word)
    requires n > 0
    ensures RunFrom(s, Raising(n, w)) == Step(RunFrom(s, Raising(n - 1, w)), Reconcile(n - 1, w))
  {
    RunsCompose(s, Raising(n - 1, w), [Reconcile(n - 1, w)]);
    OneStep(RunFrom(s, Raising(n - 1, w)), Reconcile(n - 1, w));
  }

  lemma {:induction false} FillingIsWithin(i: nat, n: nat, w: Word)
    ensures AllWithin(Filling(i, n, w), w) && Uncorrected(Filling(i, n, w))
    decreases n - i
  {
    if i < n { FillingIsWithin(i + 1, n, w); }
  }

  lemma {:induction false} RaisingIsWithin(n: nat, m: Word)
    ensures AllWithin(Raising(n, m), m)
  {
    if n > 0 { RaisingIsWithin(n - 1, m); }
  }

  /** `n` undisturbed reservations of `w` bytes, none of them refused now or later. */
  ghost predicate IsFilled(s: State, limit: Word, permits: nat, n: nat, w: Word) {
    && s.permits == permits && s.limit == limit && (w == 0 ==> s.counter == 0)
    && Holds(s, n, w, 0, 0) && Reserved(s) == Times(n, w)
  }

  lemma FillOneMore(s: State, limit: Word, permits: nat, n: nat, w: Word)
    requires IsFilled(s, limit, permits, n, w)
    ensures IsFilled(Granted(s, n, w), limit, permits, n + 1, w)
  {
    FillStep(s, n, w);
    assert n !in s.fetches;
    GrantedAdds(s, n, w);
  }

  /** Where the test refuses nothing, one more reservation goes through. */
  lemma FillOneMoreRuns(s: State, limit: Word, permits: nat, n: nat, w: Word)
    requires IsFilled(s, limit, permits, n, w) && n < permits
    requires w == 0 || limit == WORD - 1
    ensures RunFrom(s, Reservation(n, w)) == Granted(s, n, w)
  {
    assert n !in s.fetches;
    assert !Refuses(s.counter, w, s.limit);
    UndisturbedReservation(s, n, w);
  }

  lemma {:induction false} FillingHolds(s: State, limit: Word, permits: nat, i: nat, n: nat, w: Word)
    requires IsFilled(s, limit, permits, i, w) && i <= n <= permits
    requires w == 0 || limit == WORD - 1
    ensures IsFilled(RunFrom(s, Filling(i, n, w)), limit, permits, n, w)
    decreases n - i
  {
    if i < n {
      FillOneMore(s, limit, permits, i, w);
      FillOneMoreRuns(s, limit, permits, i, w);
      RunsCompose(s, Reservation(i, w), Filling(i + 1, n, w));
      FillingHolds(Granted(s, i, w), limit, permits, i + 1, n, w);
    }
  }

  lemma StartIsFilled(limit: Word, permits: nat, w: Word)
    ensures IsFilled(Start(limit, permits), limit, permits, 0, w)
  {}

  lemma {:induction false} RaisingHolds(s: State, n: nat, raised: nat, m: Word)
    requires Holds(s, n, 0, 0, 0) && Reserved(s) == 0 && raised <= n
    ensures var s' := RunFrom(s, Raising(raised, m)); Holds(s', n, 0, raised, m) && Reserved(s') == Times(raised, m)
  {
    if raised > 0 {
      var s' := RunFrom(s, Raising(raised - 1, m));
      RaisingHolds(s, n, raised - 1, m);
      RaiseStep(s', n, raised - 1, m);
      RunsNext(s, raised, m);
    } else {
      assert Holds(s, n, 0, 0, m);
    }
  }

  /** All permits reserve nothing and then turn out to hold `m` bytes each: the counter wraps below what is held. */
  lemma CorrectionsOverflow(limit: Word, permits: nat, m: Word) returns (events: seq<Event>)
    requires permits * m >= WORD
    ensures AllWithin(events, m)
    ensures var s := RunFrom(Start(limit, permits), events); |Guards(s)| == permits && s.counter < WORD <= Reserved(s)
  {
    var filling := Filling(0, permits, 0);
    var s0 := RunFrom(Start(limit, permits), filling);
    StartIsFilled(limit, permits, 0);
    FillingHolds(Start(limit, permits), limit, permits, 0, permits, 0);
    TimesIsProduct(permits, 0);
    RaisingHolds(s0, permits, permits, m);
    TimesIsProduct(permits, m);
    events := filling + Raising(permits, m);
    RunsCompose(Start(limit, permits), filling, Raising(permits, m));
    FillingIsWithin(0, permits, 0);
    RaisingIsWithin(permits, m);
    assert AllWithin(filling, m) by {
      assert forall i :: 0 <= i < |filling| ==> Within(filling[i], 0);
    }
    var s := RunFrom(Start(limit, permits), events);
    assert Guards(s) == s.fetches.Keys;
  }

  /** When no request exceeds `m` bytes the bound holds in every run, whatever the limit, if and only if `m` bytes for
      every permit fit the counter. */
  lemma BoundHoldsExactlyWhenPermitsFit(limit: Word, permits: nat, m: Word)
    ensures permits * m < WORD <==> forall events :: AllWithin(events, m) ==> EndsBounded(limit, permits, events)
  {
    if permits * m < WORD {
      forall events | AllWithin(events, m) ensures EndsBounded(limit, permits, events) {
        MemoryBound(Start(limit, permits), events, m);
      }
    } else {
      var events := CorrectionsOverflow(limit, permits, m);
      assert !EndsBounded(limit, permits, events);
    }
  }

  // ---- Runs without corrections ----

  ghost predicate NoExcess(s: State) {
    forall t :: t in s.fetches ==> ExcessOf(s.fetches[t]) == 0
  }

  lemma NoExcessSum(s: State)
    requires NoExcess(s)
    ensures Excess(s) == 0
  {
    SumOfZeros(Excesses(s.fetches));
  }

  lemma StepKeepsNoExcess(s: State, e: Event)
    requires NoExcess(s) && !e.Reconcile?
    ensures NoExcess(Step(s, e))
  {
    StepMovesOneFetch(s, e);
  }

  lemma {:induction false} UncorrectedHasNoExcess(s: State, events: seq<Event>, m: nat)
    requires NoExcess(s) && Small(s, m) && AllWithin(events, m) && Uncorrected(events)
    ensures var s' := RunFrom(s, events); NoExcess(s') && Small(s', m) && Excess(s') == 0
    decreases |events|
  {
    if events == [] {
      NoExcessSum(s);
    } else {
      assert Within(events[0], m) && !events[0].Reconcile?;
      StepKeepsSmall(s, events[0], m);
      StepKeepsNoExcess(s, events[0]);
      UncorrectedHasNoExcess(Step(s, events[0]), events[1..], m);
    }
  }

  /** With the limit set to the largest word the saturating test refuses nothing: reservations alone, none of them
      corrected, wrap the counter and break the bound. */
  lemma TopLimitBreaksTheBound(permits: nat, m: Word) returns (events: seq<Event>)
    requires permits * m >= WORD
    ensures AllWithin(events, m) && Uncorrected(events)
    ensures var s := RunFrom(Start(WORD - 1, permits), events);
            |Guards(s)| == permits && s.counter < WORD <= Reserved(s) && Bound(s) < WORD
  {
    events := Filling(0, permits, m);
    FillingIsWithin(0, permits, m);
    StartIsFilled(WORD - 1, permits, m);
    FillingHolds(Start(WORD - 1, permits), WORD - 1, permits, 0, permits, m);
    TimesIsProduct(permits, m);
    var s := RunFrom(Start(WORD - 1, permits), events);
    assert Guards(s) == s.fetches.Keys;
    UncorrectedHasNoExcess(Start(WORD - 1, permits), events, m);
  }

  /** What an uncorrected run keeps. */
  ghost predicate UncorrectedOk(s: State) {
    Inv(s) && s.limit < WORD - 1 && NoExcess(s) && Small(s, WORD - 1) && Reserved(s) <= Bound(s)
  }

  lemma UncorrectedIsExact(s: State)
    requires UncorrectedOk(s)
    ensures s.counter == Reserved(s)
  {
    NoExcessSum(s);
  }

  lemma StepKeepsUncorrected(s: State, e: Event)
    requires UncorrectedOk(s) && Within(e, WORD - 1) && !e.Reconcile?
    ensures UncorrectedOk(Step(s, e))
  {
    UncorrectedIsExact(s);
    StepKeepsInv(s, e);
    StepKeepsSmall(s, e, WORD - 1);
    StepKeepsBound(s, e);
    StepKeepsNoExcess(s, e);
  }

  lemma {:induction false} UncorrectedBound(s: State, events: seq<Event>)
    requires UncorrectedOk(s) && AllWithin(events, WORD - 1) && Uncorrected(events)
    ensures var s' := RunFrom(s, events); s'.counter == Reserved(s') <= Bound(s')
    decreases |events|
  {
    UncorrectedIsExact(s);
    if events != [] {
      assert Within(events[0], WORD - 1) && !events[0].Reconcile?;
      StepKeepsUncorrected(s, events[0]);
      UncorrectedBound(Step(s, events[0]), events[1..]);
    }
  }

  /** Where nothing is corrected the bound holds in every run if and only if the limit is below the largest word, or
      the permits fit the counter. */
  lemma UncorrectedBoundHoldsExactly(limit: Word, permits: nat, m: Word)
    ensures limit < WORD - 1 || permits * m < WORD <==>
            forall events :: AllWithin(events, m) && Uncorrected(events) ==> EndsBounded(limit, permits, events)
  {
    if permits * m < WORD {
      BoundHoldsExactlyWhenPermitsFit(limit, permits, m);
    } else if limit < WORD - 1 {
      forall events | AllWithin(events, m) && Uncorrected(events) ensures EndsBounded(limit, permits, events) {
        assert forall i :: 0 <= i < |events| ==> Within(events[i], m) && Within(events[i], WORD - 1);
        UncorrectedBound(Start(limit, permits), events);
      }
    } else {
      var events := TopLimitBreaksTheBound(permits, m);
      assert !EndsBounded(limit, permits, events);
    }
  }

  // ---- The object ----

  lemma {:induction false} RunLeavesOthersAlone(s: State, events: seq<Event>, t: TaskId)
    requires forall i :: 0 <= i < |events| ==> events[i].task != t
    requires t in s.fetches
    ensures t in RunFrom(s, events).fetches && RunFrom(s, events).fetches[t] == s.fetches[t]
    decreases |events|
  {
    if events != [] {
      StepMovesOneFetch(s, events[0]);
      RunLeavesOthersAlone(Step(s, events[0]), events[1..], t);
    }
  }

  /** One attempt that reaches its swap. */
  function Try(t: TaskId, attempt: (seq<Event>, bool)): seq<Event> {
    [Load(t)] + attempt.0 + [Swap(t, attempt.1)]
  }

  function Tries(t: TaskId, attempts: seq<(seq<Event>, bool)>): seq<Event> {
    if attempts == [] then []
    else Tries(t, attempts[..|attempts| - 1]) + Try(t, attempts[|attempts| - 1])
  }

  lemma TryRuns(s: State, t: TaskId, attempt: (seq<Event>, bool))
    ensures RunFrom(s, Try(t, attempt)) == Step(RunFrom(Step(s, Load(t)), attempt.0), Swap(t, attempt.1))
  {
    OneStep(s, Load(t));
    RunsCompose(s, [Load(t)], attempt.0);
    OneStep(RunFrom(Step(s, Load(t)), attempt.0), Swap(t, attempt.1));
    RunsCompose(s, [Load(t)] + attempt.0, [Swap(t, attempt.1)]);
  }

  lemma TriesNext(s: State, t: TaskId, attempts: seq<(seq<Event>, bool)>, i: nat)
    requires i < |attempts|
    ensures RunFrom(s, Tries(t, attempts[..i + 1])) == RunFrom(RunFrom(s, Tries(t, attempts[..i])), Try(t, attempts[i]))
  {
    assert attempts[..i + 1][..i] == attempts[..i];
    RunsCompose(s, Tries(t, attempts[..i]), Try(t, attempts[i]));
  }

  /** The counter as attempt `i` loads it. */
  ghost function CounterAt(start: State, t: TaskId, attempts: seq<(seq<Event>, bool)>, i: nat): Word
    requires i <= |attempts|
  {
    RunFrom(start, Tries(t, attempts[..i])).counter
  }

  /** A load of `counter` is refused: the buffer is not empty and the sum passes the limit; nothing passes the largest
      limit, because the sum saturates. */
  predicate Overruns(counter: Word, want: Word, limit: Word) {
    counter > 0 && counter + want > limit && limit < WORD - 1
  }

  lemma RefusesExactly(counter: Word, want: Word, limit: Word)
    ensures Refuses(counter, want, limit) <==> Overruns(counter, want, limit)
  {}

  /** Where the reservation of `t` stands after `tries` attempts, from `start`: every load that led to a swap found
      room, and a refusal comes from one that did not. */
  ghost predicate Attempted(start: State, now: State, t: TaskId, want: Word, attempts: seq<(seq<Event>, bool)>,
                            tries: nat, decided: bool)
    requires tries <= |attempts|
  {
    var s := RunFrom(start, Tries(t, attempts[..tries]));
    && t in now.fetches && now.limit == start.limit
    && (forall i :: 0 <= i < tries ==> !Overruns(CounterAt(start, t, attempts, i), want, start.limit))
    && match now.fetches[t]
       case Guarded(reserved, excess) => decided && reserved == want && excess == 0 && now == s
       case Admitted => decided && Overruns(s.counter, want, now.limit) && now == Step(s, Load(t))
       case Reserving(w) => !decided && w == want && now == s
       case Loaded(_, _) => false
  }

  /** The proxy's buffer counter and its fetches, with one method per atomic operation. */
  class InFlightBuffer {
    var counter: Word
    var fetches: map<TaskId, Fetch>
    var largest: nat
    const limit: Word
    const permits: nat

    ghost function View(): State reads this {
      State(counter, limit, permits, fetches, largest)
    }

    constructor (limit: Word, permits: nat)
      ensures View() == Start(limit, permits)
    {
      counter, fetches, largest := 0, map[], 0;
      this.limit, this.permits := limit, permits;
    }

    /** Takes a permit if one is free. */
    method TryAcquire(t: TaskId) returns (ok: bool)
      requires t !in fetches
      modifies this
      ensures View() == Step(old(View()), Acquire(t))
      ensures ok <==> |old(fetches)| < permits
      ensures fetches == if ok then old(fetches)[t := Admitted] else old(fetches)
    {
      ok := |fetches| < permits;
      if ok { fetches := fetches[t := Admitted]; }
    }

    method LoadCounter(t: TaskId) returns (refused: bool)
      requires t in fetches && fetches[t].Reserving?
      modifies this
      ensures View() == Step(old(View()), Load(t)) && counter == old(counter)
      ensures var want := old(fetches)[t].want;
              && (refused <==> counter > 0 && counter + want > limit && limit < WORD - 1)
              && fetches == old(fetches)[t := if refused then Admitted else Loaded(want, counter)]
    {
      var cur, want := counter, fetches[t].want;
      var sum := if cur + want < WORD then cur + want else WORD - 1;
      refused := cur > 0 && sum > limit;
      fetches := fetches[t := if refused then Admitted else Loaded(want, cur)];
    }

    /** compare_exchange_weak: it may also fail for no reason. */
    method CompareExchange(t: TaskId, spurious: bool) returns (ok: bool)
      requires t in fetches && fetches[t].Loaded?
      modifies this
      ensures View() == Step(old(View()), Swap(t, spurious))
      ensures var l := old(fetches)[t];
              && (ok <==> old(counter) == l.seen && !spurious)
              && counter == (if ok then (old(counter) + l.want) % WORD else old(counter))
              && fetches == old(fetches)[t := if ok then Guarded(l.want, 0) else Reserving(l.want)]
    {
      var l := fetches[t];
      ok := counter == l.seen && !spurious;
      if ok {
        counter := Wrap(l.seen + l.want);
        fetches := fetches[t := Guarded(l.want, 0)];
        if largest < l.want { largest := l.want; }
      } else {
        fetches := fetches[t := Reserving(l.want)];
      }
    }

    method ReconcileTo(t: TaskId, actual: Word)
      requires t in fetches && fetches[t].Guarded?
      modifies this
      ensures View() == Step(old(View()), Reconcile(t, actual))
      ensures fetches.Keys == old(fetches).Keys && fetches - {t} == old(fetches) - {t}
      ensures fetches[t].Guarded? && fetches[t].reserved == actual
      ensures counter == (old(counter) + actual - old(fetches)[t].reserved) % WORD
    {
      var prev, excess := fetches[t].reserved, fetches[t].excess;
      if actual > prev {
        counter := Wrap(counter + (actual - prev));
        fetches := fetches[t := Guarded(actual, excess + (actual - prev))];
      } else {
        if prev > actual { counter := Wrap(counter - (prev - actual)); }
        fetches := fetches[t := Guarded(actual, Minus(excess, prev - actual))];
      }
    }

    method Drop(t: TaskId)
      requires t in fetches && fetches[t].Guarded?
      modifies this
      ensures View() == Step(old(View()), DropGuard(t))
      ensures fetches == old(fetches)[t := Admitted]
      ensures counter == (old(counter) - old(fetches)[t].reserved) % WORD
    {
      counter := Wrap(counter - fetches[t].reserved);
      fetches := fetches[t := Admitted];
    }

    /** The fetch has decided how much to reserve. */
    method StartReserving(t: TaskId, want: Word)
      requires t in fetches && fetches[t].Admitted?
      modifies this
      ensures View() == Step(old(View()), Want(t, want))
      ensures fetches == old(fetches)[t := Reserving(want)] && counter == old(counter)
    {
      fetches := fetches[t := Reserving(want)];
    }

    /** The permit goes back. */
    method ReleasePermit(t: TaskId)
      requires t in fetches && fetches[t].Admitted?
      modifies this
      ensures View() == Step(old(View()), Release(t))
      ensures fetches == old(fetches) - {t} && counter == old(counter)
    {
      fetches := fetches - {t};
    }

    /** What the rest of the proxy does meanwhile. */
    method Others(t: TaskId, events: seq<Event>)
      requires t in fetches && forall i :: 0 <= i < |events| ==> events[i].task != t
      modifies this
      ensures View() == RunFrom(old(View()), events)
      ensures t in fetches && fetches[t] == old(fetches[t])
    {
      RunLeavesOthersAlone(View(), events, t);
      PermitsAreFixed(View(), events);
      var s := RunFrom(State(counter, limit, permits, fetches, largest), events);
      counter, fetches, largest := s.counter, s.fetches, s.largest;
    }

    /** One turn of the loop: load and test, let others run, swap. */
    method Attempt(t: TaskId, want: Word, attempt: (seq<Event>, bool)) returns (refused: bool)
      requires t in fetches && fetches[t] == Reserving(want)
      requires forall j :: 0 <= j < |attempt.0| ==> attempt.0[j].task != t
      modifies this
      ensures t in fetches
      ensures refused <==> old(counter) > 0 && old(counter) + want > limit && limit < WORD - 1
      ensures refused ==> View() == Step(old(View()), Load(t))
      ensures refused ==> fetches[t] == Admitted
      ensures !refused ==> View() == RunFrom(old(View()), Try(t, attempt))
      ensures !refused ==> fetches[t] == Guarded(want, 0) || fetches[t] == Reserving(want)
    {
      TryRuns(View(), t, attempt);
      refused := LoadCounter(t);
      if !refused {
        Others(t, attempt.0);
        var swapped := CompareExchange(t, attempt.1);
      }
    }

    /** InFlightGuard::reserve. Each attempt names the steps others take between its load and its swap, and whether the
        swap fails for no reason; the caller gives up watching when the attempts run out. `tries` counts the attempts
        that got as far as a swap. A refusal comes from one more load, of a value that the test refuses. */
    method Reserve(t: TaskId, want: Word, attempts: seq<(seq<Event>, bool)>) returns (decided: bool, tries: nat)
      requires t in fetches && fetches[t] == Reserving(want)
      requires forall i, j :: 0 <= i < |attempts| && 0 <= j < |attempts[i].0| ==> attempts[i].0[j].task != t
      modifies this
      ensures tries <= |attempts| && (!decided ==> tries == |attempts|)
      ensures Attempted(old(View()), View(), t, want, attempts, tries, decided)
    {
      decided, tries := false, 0;
      while tries < |attempts| && !decided
        invariant 0 <= tries <= |attempts|
        invariant Attempted(old(View()), View(), t, want, attempts, tries, decided)
        decreases |attempts| - tries, !decided
      {
        TriesNext(old(View()), t, attempts, tries);
        decided := Attempt(t, want, attempts[tries]);
        if !decided {
          tries := tries + 1;
          decided := fetches[t].Guarded?;
        }
      }
    }
  }
}
