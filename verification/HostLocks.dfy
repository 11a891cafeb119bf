/**
 withHostLock: a promise chain per host. Each operation waits for the promise its host's map entry held on arrival, runs
 once that promise has settled either way, and on its own cleanup removes the entry if it is still its own. Arrivals,
 starts, settlements and cleanups of different operations come in any order the promises allow.
 */
module HostLocks {
  import opened Wrappers

  type Host = string

  datatype Status = Waiting | Running | Resolved | Rejected | Cleaned

  /** An operation is named by its arrival number; `prev` is the operation it chained itself to. */
  datatype Op = Op(host: Host, prev: Option<nat>, status: Status)

  /** `locks` is the map; `ops` and `started` (the order in which operations began to run) are history. */
  datatype State = State(locks: map<Host, nat>, ops: seq<Op>, started: seq<nat>)

  datatype Event =
    | Arrive(host: Host)
    | Start(op: nat)
    | Finish(op: nat, ok: bool)
    | Cleanup(op: nat)

  const IDLE := State(map[], [], [])

  predicate Settled(o: Op) { o.status.Resolved? || o.status.Rejected? || o.status.Cleaned? }

  predicate WellFormed(s: State) {
    && (forall i :: 0 <= i < |s.ops| && s.ops[i].prev.Some? ==> s.ops[i].prev.value < i)
    && (forall h :: h in s.locks ==> s.locks[h] < |s.ops|)
  }

  /** The promise an operation waits for has settled. */
  predicate CanStart(s: State, i: nat)
    requires WellFormed(s)
  {
    && i < |s.ops| && s.ops[i].status.Waiting?
    && (s.ops[i].prev.Some? ==> Settled(s.ops[s.ops[i].prev.value]))
  }

  function Step(s: State, e: Event): (s': State)
    requires WellFormed(s)
    ensures WellFormed(s')
  {
    match e
    case Arrive(h) =>
      var prev := if h in s.locks then Some(s.locks[h]) else None;
      s.(ops := s.ops + [Op(h, prev, Waiting)], locks := s.locks[h := |s.ops|])
    case Start(i) =>
      if CanStart(s, i) then
        s.(ops := s.ops[i := s.ops[i].(status := Running)], started := s.started + [i])
      else s
    case Finish(i, ok) =>
      if i < |s.ops| && s.ops[i].status.Running? then
        s.(ops := s.ops[i := s.ops[i].(status := if ok then Resolved else Rejected)])
      else s
    case Cleanup(i) =>
      if i < |s.ops| && (s.ops[i].status.Resolved? || s.ops[i].status.Rejected?) then
        var h := s.ops[i].host;
        s.(ops := s.ops[i := s.ops[i].(status := Cleaned)],
           locks := if h in s.locks && s.locks[h] == i then s.locks - {h} else s.locks)
      else s
  }

  function RunFrom(s: State, events: seq<Event>): (s': State)
    requires WellFormed(s)
    ensures WellFormed(s')
    decreases |events|
  {
    if events == [] then s else RunFrom(Step(s, events[0]), events[1..])
  }

  // ---- The invariant ----

  predicate SameHost(s: State, i: nat, j: nat) {
    i < |s.ops| && j < |s.ops| && s.ops[i].host == s.ops[j].host
  }

  /** Once an operation has left the queue, every earlier one of its host has settled. */
  ghost predicate InTurn(s: State, i: nat, j: nat) {
    i < j && SameHost(s, i, j) && !s.ops[j].status.Waiting? ==> Settled(s.ops[i])
  }

  /** An operation is chained to its immediate predecessor; without one, all earlier operations of its host settled
      before it arrived. */
  ghost predicate Chained(s: State, i: nat, j: nat) {
    i < j && SameHost(s, i, j) ==>
      match s.ops[j].prev
      case None => Settled(s.ops[i])
      case Some(p) => i <= p < j && s.ops[p].host == s.ops[j].host
  }

  /** The entry of a host is its latest operation, which has not cleaned up; without an entry all have settled. */
  ghost predicate EntryIsLast(s: State, i: nat)
    requires WellFormed(s)
  {
    i < |s.ops| ==>
      var h := s.ops[i].host;
      if h in s.locks then i <= s.locks[h] && s.ops[s.locks[h]].host == h else Settled(s.ops[i])
  }

  ghost predicate EntryIsLive(s: State, h: Host)
    requires WellFormed(s)
  {
    h in s.locks ==> s.ops[s.locks[h]].host == h && !s.ops[s.locks[h]].status.Cleaned?
  }

  /** The start log lists exactly the operations that left the queue, each once, and per host in arrival order. */
  ghost predicate LogIsOrdered(s: State) {
    && (forall i: nat :: i in s.started <==> i < |s.ops| && !s.ops[i].status.Waiting?)
    && (forall a, b :: 0 <= a < b < |s.started| ==> s.started[a] != s.started[b])
    && (forall a, b :: 0 <= a < b < |s.started| && SameHost(s, s.started[a], s.started[b]) ==>
          s.started[a] < s.started[b])
  }

  ghost predicate Inv(s: State) {
    && WellFormed(s)
    && (forall i: nat, j: nat :: InTurn(s, i, j))
    && (forall i: nat, j: nat :: Chained(s, i, j))
    && (forall i: nat :: EntryIsLast(s, i))
    && (forall h :: EntryIsLive(s, h))
    && LogIsOrdered(s)
  }

  lemma ArriveKeeps(s: State, h: Host)
    requires Inv(s)
    ensures Inv(Step(s, Arrive(h)))
  {
    var s' := Step(s, Arrive(h));
    forall a: nat ensures EntryIsLast(s', a) { assert EntryIsLast(s, a); }
    forall a: nat, b: nat ensures InTurn(s', a, b) && Chained(s', a, b) {
      assert InTurn(s, a, b) && Chained(s, a, b) && EntryIsLast(s, a);
    }
    forall k ensures EntryIsLive(s', k) { assert EntryIsLive(s, k) && EntryIsLive(s, h); }
  }

  lemma StartKeeps(s: State, i: nat)
    requires Inv(s) && CanStart(s, i)
    ensures Inv(Step(s, Start(i)))
  {
    var s' := Step(s, Start(i));
    forall a: nat ensures EntryIsLast(s', a) { assert EntryIsLast(s, a); }
    forall a: nat, b: nat ensures InTurn(s', a, b) && Chained(s', a, b) {
      assert InTurn(s, a, b) && Chained(s, a, b);
      if s.ops[i].prev.Some? { assert InTurn(s, a, s.ops[i].prev.value); }
    }
    forall h ensures EntryIsLive(s', h) { assert EntryIsLive(s, h); }
    forall a | 0 <= a < |s.started| && SameHost(s, s.started[a], i) ensures s.started[a] < i {
      assert s.started[a] in s.started && InTurn(s, i, s.started[a]);
      assert i !in s.started;
    }
  }

  lemma CleanupKeeps(s: State, i: nat)
    requires Inv(s)
    ensures Inv(Step(s, Cleanup(i)))
  {
    var s' := Step(s, Cleanup(i));
    forall a: nat ensures EntryIsLast(s', a) { assert EntryIsLast(s, a) && InTurn(s, a, i); }
    forall a: nat, b: nat ensures InTurn(s', a, b) && Chained(s', a, b) {
      assert InTurn(s, a, b) && Chained(s, a, b);
    }
    forall h ensures EntryIsLive(s', h) { assert EntryIsLive(s, h); }
  }

  lemma StepKeepsInv(s: State, e: Event)
    requires Inv(s)
    ensures Inv(Step(s, e))
  {
    var s' := Step(s, e);
    match e {
      case Arrive(h) => ArriveKeeps(s, h);
      case Start(i) => if CanStart(s, i) { StartKeeps(s, i); }
      case Finish(i, ok) =>
        forall a: nat, b: nat ensures InTurn(s', a, b) && Chained(s', a, b) {
          assert InTurn(s, a, b) && Chained(s, a, b);
        }
        forall a: nat ensures EntryIsLast(s', a) { assert EntryIsLast(s, a); }
        forall h ensures EntryIsLive(s', h) { assert EntryIsLive(s, h); }
      case Cleanup(i) => CleanupKeeps(s, i);
    }
  }

  lemma {:induction false} RunKeepsInv(s: State, events: seq<Event>)
    requires Inv(s)
    ensures Inv(RunFrom(s, events))
    decreases |events|
  {
    if events != [] {
      StepKeepsInv(s, events[0]);
      RunKeepsInv(Step(s, events[0]), events[1..]);
    }
  }

  // ---- Main results ----

  /** In every run the operations of one host run one at a time, in arrival order, each once, whether or not earlier
      ones were rejected. */
  lemma OneAtATimeInArrivalOrder(events: seq<Event>)
    ensures var s := RunFrom(IDLE, events);
            && (forall i: nat, j: nat :: SameHost(s, i, j) && s.ops[i].status.Running? && s.ops[j].status.Running? ==>
                  i == j)
            && (forall a, b :: 0 <= a < b < |s.started| && SameHost(s, s.started[a], s.started[b]) ==>
                  s.started[a] < s.started[b])
            && (forall a, b :: 0 <= a < b < |s.started| ==> s.started[a] != s.started[b])
            && (forall i: nat :: i in s.started <==> i < |s.ops| && !s.ops[i].status.Waiting?)
  {
    RunKeepsInv(IDLE, events);
    var s := RunFrom(IDLE, events);
    forall i: nat, j: nat | SameHost(s, i, j) && s.ops[i].status.Running? && s.ops[j].status.Running? ensures i == j {
      assert InTurn(s, i, j) && InTurn(s, j, i);
    }
  }

  /** The key to it: if the map holds no entry for a host when a request arrives, every earlier operation of the host
      has settled; and if it does, the entry is the host's latest operation. */
  lemma MissingEntryMeansAllSettled(events: seq<Event>, h: Host, i: nat)
    ensures var s := RunFrom(IDLE, events);
            i < |s.ops| && s.ops[i].host == h ==>
              if h in s.locks then i <= s.locks[h] && s.ops[s.locks[h]].host == h else Settled(s.ops[i])
  {
    RunKeepsInv(IDLE, events);
    assert EntryIsLast(RunFrom(IDLE, events), i);
  }

  /** Once every operation has settled and cleaned up the map is empty: nothing leaks. */
  lemma MapEmptiesOut(events: seq<Event>)
    ensures var s := RunFrom(IDLE, events);
            (forall i :: 0 <= i < |s.ops| ==> s.ops[i].status.Cleaned?) ==> s.locks == map[]
  {
    RunKeepsInv(IDLE, events);
    var s := RunFrom(IDLE, events);
    if forall i :: 0 <= i < |s.ops| ==> s.ops[i].status.Cleaned? {
      forall h ensures h !in s.locks { assert EntryIsLive(s, h); }
    }
  }

  /** How far an operation still has to go. */
  function StepsLeft(o: Op): nat {
    match o.status
    case Waiting => 3
    case Running => 2
    case Resolved => 1
    case Rejected => 1
    case Cleaned => 0
  }

  /** Nobody waits for ever: while an operation up to `i` has not cleaned up, one of them can take its next step. */
  lemma {:induction false} SomeoneCanMove(s: State, i: nat) returns (e: Event)
    requires Inv(s) && i < |s.ops| && !s.ops[i].status.Cleaned?
    ensures !e.Arrive?
    ensures var j := e.op;
            && j <= i && |Step(s, e).ops| == |s.ops| && StepsLeft(Step(s, e).ops[j]) == StepsLeft(s.ops[j]) - 1
    decreases i
  {
    match s.ops[i].status {
      case Running => e := Finish(i, true);
      case Resolved => e := Cleanup(i);
      case Rejected => e := Cleanup(i);
      case Waiting =>
        if CanStart(s, i) {
          e := Start(i);
        } else {
          e := SomeoneCanMove(s, s.ops[i].prev.value);
        }
    }
  }

  /** The module's map and the promises it points at. */
  class HostLockTable {
    var hostLocks: map<Host, nat>
    var ops: seq<Op>
    var started: seq<nat>

    ghost function View(): State reads this {
      State(hostLocks, ops, started)
    }

    constructor ()
      ensures View() == IDLE && Inv(View())
    {
      hostLocks, ops, started := map[], [], [];
    }

    /** The synchronous part of withHostLock: chain to the current entry and become the entry. */
    method Enqueue(host: Host) returns (run: nat)
      requires Inv(View())
      modifies this
      ensures Inv(View()) && View() == Step(old(View()), Arrive(host)) && run == |old(ops)|
      ensures ops == old(ops) + [Op(host, if host in old(hostLocks) then Some(old(hostLocks)[host]) else None, Waiting)]
      ensures hostLocks == old(hostLocks)[host := run] && started == old(started)
    {
      StepKeepsInv(View(), Arrive(host));
      var prev := if host in hostLocks then Some(hostLocks[host]) else None;
      run := |ops|;
      ops := ops + [Op(host, prev, Waiting)];
      hostLocks := hostLocks[host := run];
    }

    /** The chained callback, once the previous promise has settled; its rejection is swallowed. */
    method RunNext(run: nat)
      requires Inv(View()) && run < |ops| && ops[run].status.Waiting?
      requires ops[run].prev.Some? ==>
                 ops[ops[run].prev.value].status in {Resolved, Rejected, Cleaned}
      modifies this
      ensures Inv(View()) && View() == Step(old(View()), Start(run))
      ensures ops == old(ops)[run := old(ops)[run].(status := Running)] && started == old(started) + [run]
      ensures hostLocks == old(hostLocks)
    {
      StepKeepsInv(View(), Start(run));
      ops := ops[run := ops[run].(status := Running)];
      started := started + [run];
    }

    /** The operation ends, with a result or an error. */
    method Settle(run: nat, ok: bool)
      requires Inv(View()) && run < |ops| && ops[run].status.Running?
      modifies this
      ensures Inv(View()) && View() == Step(old(View()), Finish(run, ok))
      ensures ok ==> ops == old(ops)[run := old(ops)[run].(status := Resolved)]
      ensures !ok ==> ops == old(ops)[run := old(ops)[run].(status := Rejected)]
      ensures hostLocks == old(hostLocks) && started == old(started)
    {
      StepKeepsInv(View(), Finish(run, ok));
      ops := ops[run := ops[run].(status := if ok then Resolved else Rejected)];
    }

    /** The `finally` block: remove the entry only if it is still this operation's. */
    method Finally(run: nat)
      requires Inv(View()) && run < |ops| && (ops[run].status.Resolved? || ops[run].status.Rejected?)
      modifies this
      ensures Inv(View()) && View() == Step(old(View()), Event.Cleanup(run))
      ensures ops == old(ops)[run := old(ops)[run].(status := Cleaned)] && started == old(started)
      ensures var host := old(ops)[run].host;
              hostLocks == if host in old(hostLocks) && old(hostLocks)[host] == run then old(hostLocks) - {host}
                           else old(hostLocks)
    {
      StepKeepsInv(View(), Event.Cleanup(run));
      var host := ops[run].host;
      if host in hostLocks && hostLocks[host] == run {
        hostLocks := hostLocks - {host};
      }
      ops := ops[run := ops[run].(status := Cleaned)];
    }
  }
}
