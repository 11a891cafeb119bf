/**
 The single-flight protocol of the proxy. The first miss for a key becomes the leader and fetches; later arrivals
 subscribe to the leader's broadcast channel. Every mutex section of the source is one step, and steps of different
 tasks interleave freely. Tokio gives a channel at least `capacity` slots; here it has exactly that many, so the
 model lags no later than the library does.
 */
module Coalescing {
  import opened Wrappers

  type Key = string
  type TaskId = nat
  type ChannelId = nat

  datatype CacheOutcome = L1Hit | L2Hit | Miss | BypassMethod | BypassNoCache | BypassSize | BypassOther
  datatype Response = Response(body: Bytes, contentType: Option<string>, status: nat, outcome: CacheOutcome,
                               cachedHeaders: Headers, passthroughHeaders: Headers)
  datatype Reply = Fetched(response: Response) | Failed

  /** A broadcast channel with everything ever sent on it. `key`, `leader` and `settledAt` (the time its sender was
      dropped) are history. */
  datatype Channel = Channel(key: Key, leader: TaskId, capacity: nat, sent: seq<Reply>, settledAt: Option<nat>)

  /** What one call of get_or_fetch_with_capacity is doing. `channel` and `enteredAt` are history for a leader. */
  datatype Task =
    | Leading(key: Key, channel: ChannelId, enteredAt: nat)
    | Waiting(key: Key, channel: ChannelId, enteredAt: nat, cursor: nat)
    | Returned(key: Key, channel: ChannelId, enteredAt: nat, reply: Reply)
    | Gone(key: Key, channel: ChannelId, enteredAt: nat)

  datatype State = State(inFlight: map<Key, ChannelId>, channels: seq<Channel>, tasks: map<TaskId, Task>,
                         laggedCount: nat, clock: nat)

  datatype Event =
    | Enter(task: TaskId, key: Key, capacity: nat)
    | FetchDone(task: TaskId, reply: Reply)
    | LeaderDropped(task: TaskId)        // panic or cancellation: only the DropGuard runs
    | Recv(task: TaskId)
    | SubscriberCancelled(task: TaskId)

  const IDLE := State(map[], [], map[], 0, 0)

  /** Channel ids point at channels. */
  ghost predicate WellFormed(s: State) {
    && (forall k :: k in s.inFlight ==> s.inFlight[k] < |s.channels|)
    && (forall t :: t in s.tasks ==> s.tasks[t].channel < |s.channels|)
  }

  /** `map.remove(&key)`, and dropping the removed sender after sending `last` on it. */
  ghost function Settle(s: State, key: Key, last: seq<Reply>): State
    requires WellFormed(s)
  {
    if key !in s.inFlight then s else
      var c := s.inFlight[key];
      var ch := s.channels[c];
      s.(inFlight := s.inFlight - {key},
         channels := s.channels[c := ch.(sent := ch.sent + last, settledAt := Some(s.clock))])
  }

  /** What `rx.recv()` yields: lagging, a message, a closed channel, or nothing yet. */
  datatype Received = Lagged | Message(reply: Reply) | Closed | Pending

  ghost function Receive(ch: Channel, cursor: nat): Received {
    if cursor + ch.capacity < |ch.sent| then Lagged
    else if cursor < |ch.sent| then Message(ch.sent[cursor])
    else if ch.settledAt.Some? then Closed
    else Pending
  }

  /** One step. An event its task cannot take leaves everything but the clock alone. */
  ghost function Step(s: State, e: Event): (s': State)
    requires WellFormed(s)
    ensures WellFormed(s')
  {
    var now := s.(clock := s.clock + 1);
    match e
    case Enter(t, key, capacity) =>
      if t in s.tasks then now
      else if key in s.inFlight then
        var c := s.inFlight[key];
        now.(tasks := s.tasks[t := Waiting(key, c, s.clock, |s.channels[c].sent|)])
      else
        var cap := if capacity < 1 then 1 else capacity;
        now.(inFlight := s.inFlight[key := |s.channels|],
             channels := s.channels + [Channel(key, t, cap, [], None)],
             tasks := s.tasks[t := Leading(key, |s.channels|, s.clock)])
    case FetchDone(t, reply) =>
      if t in s.tasks && s.tasks[t].Leading? then
        var l := s.tasks[t];
        var settled := Settle(s, l.key, [reply]);
        settled.(clock := s.clock + 1, tasks := s.tasks[t := Returned(l.key, l.channel, l.enteredAt, reply)])
      else now
    case LeaderDropped(t) =>
      if t in s.tasks && s.tasks[t].Leading? then
        var l := s.tasks[t];
        Settle(s, l.key, []).(clock := s.clock + 1, tasks := s.tasks[t := Gone(l.key, l.channel, l.enteredAt)])
      else now
    case Recv(t) =>
      if t in s.tasks && s.tasks[t].Waiting? then
        var w := s.tasks[t];
        match Receive(s.channels[w.channel], w.cursor)
        case Pending => now
        case Message(r) => now.(tasks := s.tasks[t := Returned(w.key, w.channel, w.enteredAt, r)])
        case Closed => now.(tasks := s.tasks[t := Returned(w.key, w.channel, w.enteredAt, Failed)])
        case Lagged => now.(tasks := s.tasks[t := Returned(w.key, w.channel, w.enteredAt, Failed)],
                            laggedCount := s.laggedCount + 1)
      else now
    case SubscriberCancelled(t) =>
      if t in s.tasks && s.tasks[t].Waiting? then
        var w := s.tasks[t];
        now.(tasks := s.tasks[t := Gone(w.key, w.channel, w.enteredAt)])
      else now
  }

  ghost function RunFrom(s: State, events: seq<Event>): (s': State)
    requires WellFormed(s)
    ensures WellFormed(s')
    decreases |events|
  {
    if events == [] then s else RunFrom(Step(s, events[0]), events[1..])
  }

  // ---- The invariant ----

  /** A live leader is the leader of the very channel registered for its key. */
  ghost predicate LeaderOwnsEntry(s: State, t: TaskId)
    requires WellFormed(s)
  {
    t in s.tasks && s.tasks[t].Leading? ==>
      var l := s.tasks[t];
      && l.key in s.inFlight && s.inFlight[l.key] == l.channel
      && s.channels[l.channel].leader == t
  }

  /** A registered channel belongs to a live leader of that key, and nothing was sent on it. */
  ghost predicate EntryHasLeader(s: State, k: Key)
    requires WellFormed(s)
  {
    k in s.inFlight ==>
      var ch := s.channels[s.inFlight[k]];
      && ch.key == k && ch.settledAt.None? && ch.sent == []
      && ch.leader in s.tasks && s.tasks[ch.leader].Leading? && s.tasks[ch.leader].channel == s.inFlight[k]
      && s.tasks[ch.leader].key == k
  }

  /** A channel carries at most one message, and stays registered until it is settled. */
  ghost predicate ChannelIsSingleShot(s: State, c: ChannelId)
    requires WellFormed(s) && c < |s.channels|
  {
    var ch := s.channels[c];
    && ch.capacity >= 1 && |ch.sent| <= 1
    && (ch.settledAt.None? ==> ch.key in s.inFlight && s.inFlight[ch.key] == c)
    && (ch.settledAt.Some? ==> ch.settledAt.value < s.clock)
  }

  /** What a settled channel tells those who still listen. */
  ghost function Outcome(ch: Channel): Reply {
    if ch.sent != [] then ch.sent[0] else Failed
  }

  /** A subscriber listens from the start, and entered before its channel settled; a returned call has the outcome
      of its channel. */
  ghost predicate TaskIsServed(s: State, t: TaskId)
    requires WellFormed(s)
  {
    t in s.tasks ==>
      var task := s.tasks[t];
      var ch := s.channels[task.channel];
      && ch.key == task.key && task.enteredAt < s.clock
      && (ch.settledAt.Some? ==> task.enteredAt < ch.settledAt.value)
      && (task.Waiting? ==> task.cursor == 0)
      && (task.Returned? ==> ch.settledAt.Some? && task.reply == Outcome(ch))
  }

  /** The leader of a settled channel has either returned what was sent, or was dropped and sent nothing. */
  ghost predicate LeaderReported(s: State, c: ChannelId)
    requires WellFormed(s) && c < |s.channels|
  {
    var ch := s.channels[c];
    && ch.leader in s.tasks && s.tasks[ch.leader].channel == c
    && match s.tasks[ch.leader]
       case Leading(_, _, _) => ch.settledAt.None?
       case Waiting(_, _, _, _) => false
       case Returned(_, _, _, reply) => ch.settledAt.Some? && ch.sent == [reply]
       case Gone(_, _, _) => ch.settledAt.Some? && ch.sent == []
  }

  ghost predicate Inv(s: State) {
    && WellFormed(s)
    && (forall t :: LeaderOwnsEntry(s, t))
    && (forall k :: EntryHasLeader(s, k))
    && (forall c :: 0 <= c < |s.channels| ==> ChannelIsSingleShot(s, c) && LeaderReported(s, c))
    && (forall t :: TaskIsServed(s, t))
    && s.laggedCount == 0
  }

  lemma StepEnter(s: State, e: Event)
    requires Inv(s) && e.Enter?
    ensures Inv(Step(s, e))
  {
    var s' := Step(s, e);
    forall t ensures LeaderOwnsEntry(s', t) && TaskIsServed(s', t) {
      assert LeaderOwnsEntry(s, t) && TaskIsServed(s, t) && EntryHasLeader(s, e.key);
    }
    forall k ensures EntryHasLeader(s', k) {
      assert EntryHasLeader(s, k);
    }
    forall c | 0 <= c < |s'.channels| ensures ChannelIsSingleShot(s', c) && LeaderReported(s', c) {
      assert c < |s.channels| ==> ChannelIsSingleShot(s, c) && LeaderReported(s, c);
    }
  }

  lemma StepSettle(s: State, e: Event)
    requires Inv(s) && (e.FetchDone? || e.LeaderDropped?)
    ensures Inv(Step(s, e))
  {
    var s' := Step(s, e);
    assert LeaderOwnsEntry(s, e.task);
    if e.task in s.tasks && s.tasks[e.task].Leading? { assert EntryHasLeader(s, s.tasks[e.task].key); }
    forall t ensures LeaderOwnsEntry(s', t) && TaskIsServed(s', t) {
      assert LeaderOwnsEntry(s, t) && TaskIsServed(s, t) && TaskIsServed(s, e.task);
    }
    forall k ensures EntryHasLeader(s', k) {
      assert EntryHasLeader(s, k);
    }
    forall c | 0 <= c < |s'.channels| ensures ChannelIsSingleShot(s', c) && LeaderReported(s', c) {
      assert ChannelIsSingleShot(s, c) && LeaderReported(s, c);
    }
  }

  /** How a listening call may end: it leaves, or it returns the outcome of its settled channel. */
  ghost predicate Ends(s: State, t: TaskId, end: Task)
    requires WellFormed(s)
  {
    && t in s.tasks && s.tasks[t].Waiting?
    && var w := s.tasks[t];
       || end == Gone(w.key, w.channel, w.enteredAt)
       || (s.channels[w.channel].settledAt.Some?
           && end == Returned(w.key, w.channel, w.enteredAt, Outcome(s.channels[w.channel])))
  }

  lemma EndingKeepsInv(s: State, t: TaskId, end: Task)
    requires Inv(s) && Ends(s, t, end)
    ensures Inv(s.(clock := s.clock + 1, tasks := s.tasks[t := end]))
  {
    var s' := s.(clock := s.clock + 1, tasks := s.tasks[t := end]);
    forall u ensures LeaderOwnsEntry(s', u) && TaskIsServed(s', u) {
      assert LeaderOwnsEntry(s, u) && TaskIsServed(s, u);
    }
    forall k ensures EntryHasLeader(s', k) {
      assert EntryHasLeader(s, k);
    }
    forall c | 0 <= c < |s'.channels| ensures ChannelIsSingleShot(s', c) && LeaderReported(s', c) {
      assert ChannelIsSingleShot(s, c) && LeaderReported(s, c);
    }
  }

  lemma TickKeepsInv(s: State)
    requires Inv(s)
    ensures Inv(s.(clock := s.clock + 1))
  {
    var s' := s.(clock := s.clock + 1);
    forall u ensures LeaderOwnsEntry(s', u) && TaskIsServed(s', u) {
      assert LeaderOwnsEntry(s, u) && TaskIsServed(s, u);
    }
    forall k ensures EntryHasLeader(s', k) { assert EntryHasLeader(s, k); }
    forall c | 0 <= c < |s'.channels| ensures ChannelIsSingleShot(s', c) && LeaderReported(s', c) {
      assert ChannelIsSingleShot(s, c) && LeaderReported(s, c);
    }
  }

  /** Listening never lags: a message or a closed channel is the outcome, and otherwise the wait goes on. */
  lemma ListeningGetsTheOutcome(s: State, t: TaskId)
    requires Inv(s) && t in s.tasks && s.tasks[t].Waiting?
    ensures var ch := s.channels[s.tasks[t].channel];
            match Receive(ch, s.tasks[t].cursor)
            case Pending => ch.settledAt.None?
            case Message(reply) => ch.settledAt.Some? && reply == Outcome(ch)
            case Closed => ch.settledAt.Some? && Outcome(ch) == Failed
            case Lagged => false
  {
    var c := s.tasks[t].channel;
    assert TaskIsServed(s, t) && ChannelIsSingleShot(s, c) && EntryHasLeader(s, s.channels[c].key);
  }

  lemma StepListen(s: State, e: Event)
    requires Inv(s) && (e.Recv? || e.SubscriberCancelled?)
    ensures Inv(Step(s, e))
  {
    var t := e.task;
    TickKeepsInv(s);
    if t in s.tasks && s.tasks[t].Waiting? {
      var w := s.tasks[t];
      EndingKeepsInv(s, t, Gone(w.key, w.channel, w.enteredAt));
      ListeningGetsTheOutcome(s, t);
      if s.channels[w.channel].settledAt.Some? {
        EndingKeepsInv(s, t, Returned(w.key, w.channel, w.enteredAt, Outcome(s.channels[w.channel])));
      }
    }
  }

  lemma StepKeepsInv(s: State, e: Event)
    requires Inv(s)
    ensures Inv(Step(s, e))
  {
    match e {
      case Enter(_, _, _) => StepEnter(s, e);
      case FetchDone(_, _) => StepSettle(s, e);
      case LeaderDropped(_) => StepSettle(s, e);
      case Recv(_) => StepListen(s, e);
      case SubscriberCancelled(_) => StepListen(s, e);
    }
  }

  /** The invariant holds after every interleaving, panics and cancellations included. */
  lemma {:induction false} RunKeepsInv(s: State, events: seq<Event>)
    requires Inv(s)
    ensures Inv(RunFrom(s, events))
    decreases |events|
  {
    if events != [] {
      StepKeepsInv(s, events[0]);
      RunKeepsInv(Step(s, events[0]), events[1..]);
    }
  }

  // ---- Main results ----

  ghost predicate Leads(s: State, t: TaskId, k: Key) {
    t in s.tasks && s.tasks[t].Leading? && s.tasks[t].key == k
  }

  /** In every reachable state the in-flight map lists exactly the keys being fetched, each with the channel of its
      one live leader: no key is fetched twice at a time. */
  lemma OneLiveLeaderPerKey(events: seq<Event>, k: Key)
    ensures var s := RunFrom(IDLE, events);
            && (k in s.inFlight <==> exists t :: Leads(s, t, k))
            && (forall t :: Leads(s, t, k) ==>
                  s.inFlight[k] == s.tasks[t].channel && s.channels[s.inFlight[k]].leader == t)
            && (forall t, u :: Leads(s, t, k) && Leads(s, u, k) ==> t == u)
  {
    RunKeepsInv(IDLE, events);
    var s := RunFrom(IDLE, events);
    assert EntryHasLeader(s, k);
    if k in s.inFlight { assert Leads(s, s.channels[s.inFlight[k]].leader, k); }
    forall t | Leads(s, t, k)
      ensures k in s.inFlight && s.inFlight[k] == s.tasks[t].channel && s.channels[s.inFlight[k]].leader == t
    {
      assert LeaderOwnsEntry(s, t);
    }
  }

  ghost function Without(m: map<Key, ChannelId>, c: ChannelId): map<Key, ChannelId> {
    map k | k in m && m[k] != c :: m[k]
  }

  /** A leader, or the guard of a dropped one, removes its own channel and leaves every other one alone. */
  lemma LeaderRemovesOnlyItsOwnChannel(s: State, t: TaskId, reply: Reply)
    requires Inv(s) && t in s.tasks && s.tasks[t].Leading?
    ensures var own := s.tasks[t].channel;
            var closed := s.channels[own].(settledAt := Some(s.clock));
            && Step(s, FetchDone(t, reply)).inFlight == Without(s.inFlight, own)
            && Step(s, LeaderDropped(t)).inFlight == Without(s.inFlight, own)
            && Step(s, FetchDone(t, reply)).channels == s.channels[own := closed.(sent := [reply])]
            && Step(s, LeaderDropped(t)).channels == s.channels[own := closed]
  {
    var l := s.tasks[t];
    assert LeaderOwnsEntry(s, t) && EntryHasLeader(s, l.key);
    forall k | k in s.inFlight && k != l.key ensures s.inFlight[k] != l.channel {
      assert EntryHasLeader(s, k);
    }
    assert Without(s.inFlight, l.channel) == s.inFlight - {l.key};
    var ch := s.channels[l.channel];
    assert ch.sent + [reply] == [reply] && ch.sent + [] == [];
    assert ch.(sent := ch.sent + [], settledAt := Some(s.clock)) == ch.(settledAt := Some(s.clock));
    assert ch.(sent := ch.sent + [reply], settledAt := Some(s.clock))
        == ch.(settledAt := Some(s.clock)).(sent := [reply]);
  }

  lemma SettledChannelIsFrozen(s: State, e: Event, c: ChannelId)
    requires Inv(s) && c < |s.channels| && s.channels[c].settledAt.Some?
    ensures c < |Step(s, e).channels| && Step(s, e).channels[c] == s.channels[c]
  {
    if e.task in s.tasks && s.tasks[e.task].Leading? {
      assert EntryHasLeader(s, s.tasks[e.task].key);
    }
  }

  ghost predicate SameCall(s: State, s': State, t: TaskId)
    requires WellFormed(s) && WellFormed(s') && t in s.tasks
  {
    var c := s.tasks[t].channel;
    && t in s'.tasks && c < |s'.channels|
    && s'.tasks[t].key == s.tasks[t].key && s'.tasks[t].channel == c
    && s'.tasks[t].enteredAt == s.tasks[t].enteredAt
    && (s.channels[c].settledAt.Some? ==> s'.channels[c] == s.channels[c])
  }

  /** A call stays with the channel it was given, and a settled channel stays as it is. */
  lemma {:induction false} CallsKeepTheirChannel(s: State, events: seq<Event>, t: TaskId)
    requires Inv(s) && t in s.tasks
    ensures Inv(RunFrom(s, events)) && SameCall(s, RunFrom(s, events), t)
    decreases |events|
  {
    if events != [] {
      var s1 := Step(s, events[0]);
      StepKeepsInv(s, events[0]);
      assert SameCall(s, s1, t) by {
        if s.channels[s.tasks[t].channel].settledAt.Some? {
          SettledChannelIsFrozen(s, events[0], s.tasks[t].channel);
        }
      }
      CallsKeepTheirChannel(s1, events[1..], t);
    }
  }

  /** Whoever waits when its leader ends, and is still waiting after any further steps of anybody, receives exactly
      the leader's reply, or an error if the leader was dropped. */
  lemma Delivery(s: State, end: Event, later: seq<Event>, t: TaskId)
    requires Inv(s) && t in s.tasks && s.tasks[t].Waiting?
    requires end.FetchDone? || end.LeaderDropped?
    requires end.task == s.channels[s.tasks[t].channel].leader
    requires end.task in s.tasks && s.tasks[end.task].Leading?
    requires var s' := RunFrom(Step(s, end), later); t in s'.tasks && s'.tasks[t].Waiting?
    ensures var w, s' := s.tasks[t], RunFrom(Step(s, end), later);
            Step(s', Recv(t)).tasks[t] ==
            Returned(w.key, w.channel, w.enteredAt, if end.FetchDone? then end.reply else Failed)
  {
    var c := s.tasks[t].channel;
    assert LeaderOwnsEntry(s, end.task) && LeaderReported(s, c);
    assert EntryHasLeader(s, s.channels[c].key);
    StepSettle(s, end);
    var s1 := Step(s, end);
    CallsKeepTheirChannel(s1, later, t);
    assert TaskIsServed(RunFrom(s1, later), t);
  }

  /** The event makes task `t` give up. */
  predicate Abandons(e: Event, t: TaskId) { e == SubscriberCancelled(t) || e == LeaderDropped(t) }

  /** Only a cancellation or a drop ends a call without a reply. */
  lemma {:induction false} GoneMeansAbandoned(s: State, events: seq<Event>, t: TaskId)
    requires WellFormed(s) && !(t in s.tasks && s.tasks[t].Gone?)
    ensures var s' := RunFrom(s, events);
            t in s'.tasks && s'.tasks[t].Gone? ==> exists i :: 0 <= i < |events| && Abandons(events[i], t)
    decreases |events|
  {
    if events != [] {
      var s1 := Step(s, events[0]);
      if t in s1.tasks && s1.tasks[t].Gone? {
        assert Abandons(events[0], t);
      } else {
        GoneMeansAbandoned(s1, events[1..], t);
        if i :| 0 <= i < |events[1..]| && Abandons(events[1..][i], t) { assert Abandons(events[i + 1], t); }
      }
    }
  }

  /** The event ends the fetch of leader `l`. */
  predicate EndsFetch(e: Event, l: TaskId) { e == LeaderDropped(l) || (e.FetchDone? && e.task == l) }

  /** While its leader fetches and nobody cancels it, a subscriber waits, however often it polls. */
  lemma {:induction false} SubscriberWaits(s: State, events: seq<Event>, t: TaskId, l: TaskId)
    requires Inv(s) && t in s.tasks && s.tasks[t].Waiting?
    requires l in s.tasks && s.tasks[l].Leading? && s.tasks[l].channel == s.tasks[t].channel
    requires forall i :: 0 <= i < |events| ==> events[i] != SubscriberCancelled(t) && !EndsFetch(events[i], l)
    ensures var s' := RunFrom(s, events);
            && Inv(s') && t in s'.tasks && s'.tasks[t] == s.tasks[t] && l in s'.tasks && s'.tasks[l] == s.tasks[l]
    decreases |events|
  {
    if events != [] {
      var s1 := Step(s, events[0]);
      assert events[0] != SubscriberCancelled(t) && !EndsFetch(events[0], l);
      assert LeaderReported(s, s.tasks[t].channel) && LeaderOwnsEntry(s, l) && EntryHasLeader(s, s.tasks[l].key);
      ListeningGetsTheOutcome(s, t);
      StepKeepsInv(s, events[0]);
      assert s1.tasks[t] == s.tasks[t] && s1.tasks[l] == s.tasks[l];
      SubscriberWaits(s1, events[1..], t, l);
    }
  }

  /** Task `t` is the given call, still waiting or with its reply. */
  ghost predicate IsServed(s: State, t: TaskId, key: Key, c: ChannelId, enteredAt: nat) {
    && t in s.tasks && (s.tasks[t].Waiting? || s.tasks[t].Returned?)
    && s.tasks[t].key == key && s.tasks[t].channel == c && s.tasks[t].enteredAt == enteredAt
  }

  lemma {:induction false} SubscriberStays(s: State, events: seq<Event>, t: TaskId, key: Key, c: ChannelId, at: nat)
    requires Inv(s) && IsServed(s, t, key, c, at)
    requires forall i :: 0 <= i < |events| ==> events[i] != SubscriberCancelled(t)
    ensures Inv(RunFrom(s, events)) && IsServed(RunFrom(s, events), t, key, c, at)
    decreases |events|
  {
    if events != [] {
      assert events[0] != SubscriberCancelled(t);
      StepKeepsInv(s, events[0]);
      SubscriberStays(Step(s, events[0]), events[1..], t, key, c, at);
    }
  }

  lemma {:induction false} ReplyArrives(s: State, end: Event, later: seq<Event>, t: TaskId, l: TaskId)
    requires Inv(s) && t in s.tasks && s.tasks[t].Waiting?
    requires l in s.tasks && s.tasks[l].Leading? && s.tasks[l].channel == s.tasks[t].channel && EndsFetch(end, l)
    requires forall i :: 0 <= i < |later| ==> later[i] != SubscriberCancelled(t)
    ensures var w, s' := s.tasks[t], Step(RunFrom(Step(s, end), later), Recv(t));
            && t in s'.tasks
            && s'.tasks[t] == Returned(w.key, w.channel, w.enteredAt, if end.FetchDone? then end.reply else Failed)
  {
    var w, c := s.tasks[t], s.tasks[t].channel;
    assert LeaderOwnsEntry(s, l) && EntryHasLeader(s, s.tasks[l].key);
    StepKeepsInv(s, end);
    var ended := Step(s, end);
    assert ended.channels[c].settledAt.Some?;
    assert Outcome(ended.channels[c]) == if end.FetchDone? then end.reply else Failed;
    SubscriberStays(ended, later, t, w.key, c, w.enteredAt);
    CallsKeepTheirChannel(ended, later, t);
    var last := RunFrom(ended, later);
    assert TaskIsServed(last, t);
    if last.tasks[t].Waiting? { ListeningGetsTheOutcome(last, t); }
  }

  /** A call that enters while its key is fetched subscribes, and waits as long as the fetch goes on. */
  lemma {:induction false} EnteringSubscribes(s: State, t: TaskId, key: Key, capacity: nat, during: seq<Event>)
    requires Inv(s) && t !in s.tasks && key in s.inFlight
    requires forall i :: 0 <= i < |during| ==>
               during[i] != SubscriberCancelled(t) && !EndsFetch(during[i], s.channels[s.inFlight[key]].leader)
    ensures var s', l := RunFrom(Step(s, Enter(t, key, capacity)), during), s.channels[s.inFlight[key]].leader;
            && Inv(s') && t in s'.tasks && s'.tasks[t] == Waiting(key, s.inFlight[key], s.clock, 0)
            && l in s'.tasks && s'.tasks[l].Leading? && s'.tasks[l].channel == s.inFlight[key]
  {
    assert EntryHasLeader(s, key);
    StepKeepsInv(s, Enter(t, key, capacity));
    SubscriberWaits(Step(s, Enter(t, key, capacity)), during, t, s.channels[s.inFlight[key]].leader);
  }

  /** From the call to its reply: a call that enters while its key is fetched and is never cancelled gets, with its
      first receive after the fetch has ended, what the fetch returned, or an error if the fetcher was dropped. */
  lemma {:induction false} SubscriberGetsTheReply(s: State, t: TaskId, key: Key, capacity: nat, during: seq<Event>,
                                                  end: Event, later: seq<Event>)
    requires Inv(s) && t !in s.tasks && key in s.inFlight
    requires EndsFetch(end, s.channels[s.inFlight[key]].leader)
    requires forall i :: 0 <= i < |during| ==>
               during[i] != SubscriberCancelled(t) && !EndsFetch(during[i], s.channels[s.inFlight[key]].leader)
    requires forall i :: 0 <= i < |later| ==> later[i] != SubscriberCancelled(t)
    ensures var waiting := RunFrom(Step(s, Enter(t, key, capacity)), during);
            var s' := Step(RunFrom(Step(waiting, end), later), Recv(t));
            && t in s'.tasks
            && s'.tasks[t] == Returned(key, s.inFlight[key], s.clock, if end.FetchDone? then end.reply else Failed)
  {
    EnteringSubscribes(s, t, key, capacity, during);
    ReplyArrives(RunFrom(Step(s, Enter(t, key, capacity)), during), end, later, t, s.channels[s.inFlight[key]].leader);
  }

  /** Nobody is stranded: a waiting call either has a live leader of its own key, or its receive completes. */
  lemma NobodyIsStranded(events: seq<Event>, t: TaskId)
    ensures var s := RunFrom(IDLE, events);
            t in s.tasks && s.tasks[t].Waiting? ==>
              var leader := s.channels[s.tasks[t].channel].leader;
              || (leader in s.tasks && s.tasks[leader].Leading? && s.tasks[leader].key == s.tasks[t].key)
              || Step(s, Recv(t)).tasks[t].Returned?
  {
    RunKeepsInv(IDLE, events);
    var s := RunFrom(IDLE, events);
    if t in s.tasks && s.tasks[t].Waiting? {
      var c := s.tasks[t].channel;
      assert TaskIsServed(s, t) && LeaderReported(s, c) && ChannelIsSingleShot(s, c);
      assert LeaderOwnsEntry(s, s.channels[c].leader);
      assert EntryHasLeader(s, s.channels[c].key);
    }
  }

  /** Over whole runs: a call that returned entered before its channel settled and has its leader's reply, or an error
      when that leader is gone; and the lag counter is still zero. */
  lemma EveryReplyIsTheLeaders(events: seq<Event>, t: TaskId)
    ensures var s := RunFrom(IDLE, events);
            && s.laggedCount == 0
            && (t in s.tasks && s.tasks[t].Returned? ==>
                  var call, ch := s.tasks[t], s.channels[s.tasks[t].channel];
                  && ch.key == call.key && ch.settledAt.Some? && call.enteredAt < ch.settledAt.value
                  && ch.leader in s.tasks
                  && (|| (s.tasks[ch.leader].Returned? && call.reply == s.tasks[ch.leader].reply)
                      || (s.tasks[ch.leader].Gone? && call.reply == Failed)))
  {
    RunKeepsInv(IDLE, events);
    var s := RunFrom(IDLE, events);
    if t in s.tasks && s.tasks[t].Returned? {
      assert TaskIsServed(s, t) && LeaderReported(s, s.tasks[t].channel);
    }
  }

  // ---- Capacity never matters ----

  ghost predicate SameButCapacity(e: Event, f: Event) {
    e == f || (e.Enter? && f.Enter? && e.task == f.task && e.key == f.key)
  }

  ghost predicate EqualUpToCapacity(s: State, u: State) {
    && s.inFlight == u.inFlight && s.tasks == u.tasks && s.clock == u.clock && s.laggedCount == u.laggedCount
    && |s.channels| == |u.channels|
    && (forall c :: 0 <= c < |s.channels| ==> s.channels[c].(capacity := 0) == u.channels[c].(capacity := 0))
  }

  /** A channel that carries at most one message lags nobody, so its capacity does not show. */
  lemma ReceiveIgnoresCapacity(s: State, u: State, c: ChannelId)
    requires Inv(s) && Inv(u) && EqualUpToCapacity(s, u) && c < |s.channels|
    ensures Receive(s.channels[c], 0) == Receive(u.channels[c], 0)
  {
    assert ChannelIsSingleShot(s, c) && ChannelIsSingleShot(u, c);
    assert s.channels[c].(capacity := 0) == u.channels[c].(capacity := 0);
  }

  lemma CapacityStepSettle(s: State, u: State, e: Event)
    requires WellFormed(s) && WellFormed(u) && EqualUpToCapacity(s, u)
    requires e.FetchDone? || e.LeaderDropped? || e.SubscriberCancelled?
    ensures EqualUpToCapacity(Step(s, e), Step(u, e))
  {
    var s', u' := Step(s, e), Step(u, e);
    forall c | 0 <= c < |s'.channels| ensures s'.channels[c].(capacity := 0) == u'.channels[c].(capacity := 0) {
      assert s.channels[c].(capacity := 0) == u.channels[c].(capacity := 0);
    }
  }

  lemma CapacityStep(s: State, u: State, e: Event, f: Event)
    requires Inv(s) && Inv(u) && EqualUpToCapacity(s, u) && SameButCapacity(e, f)
    ensures EqualUpToCapacity(Step(s, e), Step(u, f))
  {
    match e {
      case Enter(_, key, _) =>
        if key in s.inFlight {
          var c := s.inFlight[key];
          assert s.channels[c].(capacity := 0) == u.channels[c].(capacity := 0);
        }
      case Recv(t) =>
        if t in s.tasks && s.tasks[t].Waiting? {
          assert TaskIsServed(s, t);
          ReceiveIgnoresCapacity(s, u, s.tasks[t].channel);
        }
      case _ => CapacityStepSettle(s, u, e);
    }
  }

  /** Two runs that differ only in the requested channel capacities, zero included, give every call the same reply. */
  lemma {:induction false} CapacityIsIrrelevant(s: State, u: State, events: seq<Event>, others: seq<Event>)
    requires Inv(s) && Inv(u) && EqualUpToCapacity(s, u)
    requires |events| == |others|
    requires forall i :: 0 <= i < |events| ==> SameButCapacity(events[i], others[i])
    ensures EqualUpToCapacity(RunFrom(s, events), RunFrom(u, others))
    ensures RunFrom(s, events).tasks == RunFrom(u, others).tasks
    decreases |events|
  {
    if events != [] {
      CapacityStep(s, u, events[0], others[0]);
      StepKeepsInv(s, events[0]);
      StepKeepsInv(u, others[0]);
      CapacityIsIrrelevant(Step(s, events[0]), Step(u, others[0]), events[1..], others[1..]);
    }
  }

  // ---- The object ----

  /** The coalescer as the proxy holds it. Each method is one critical section (or one completed receive). */
  class Coalescer {
    var inFlight: map<Key, ChannelId>
    var laggedCount: nat
    var channels: seq<Channel>
    var tasks: map<TaskId, Task>
    var clock: nat

    ghost function View(): State reads this {
      State(inFlight, channels, tasks, laggedCount, clock)
    }

    ghost predicate Valid() reads this {
      Inv(View())
    }

    constructor ()
      ensures View() == IDLE && Valid()
    {
      inFlight, laggedCount, channels, tasks, clock := map[], 0, [], map[], 0;
    }

    /** The first critical section: subscribe to the running fetch, or become its leader. */
    method Enter(t: TaskId, key: Key, capacity: nat) returns (leads: bool)
      requires Valid() && t !in tasks
      modifies this
      ensures Valid() && View() == Step(old(View()), Event.Enter(t, key, capacity))
      ensures leads <==> key !in old(inFlight)
      ensures !leads ==>
                && inFlight == old(inFlight) && channels == old(channels)
                && tasks == old(tasks)[t := Waiting(key, old(inFlight)[key], old(clock), 0)]
      ensures leads ==>
                && inFlight == old(inFlight)[key := |old(channels)|]
                && channels == old(channels) + [Channel(key, t, if capacity == 0 then 1 else capacity, [], None)]
                && tasks == old(tasks)[t := Leading(key, |old(channels)|, old(clock))]
    {
      assert key in inFlight ==> channels[inFlight[key]].sent == [] by { assert EntryHasLeader(View(), key); }
      StepKeepsInv(View(), Event.Enter(t, key, capacity));
      var cap := if capacity < 1 then 1 else capacity;
      leads := key !in inFlight;
      if leads {
        tasks := tasks[t := Leading(key, |channels|, clock)];
        inFlight := inFlight[key := |channels|];
        channels := channels + [Channel(key, t, cap, [], None)];
      } else {
        var c := inFlight[key];
        tasks := tasks[t := Waiting(key, c, clock, |channels[c].sent|)];
      }
      clock := clock + 1;
    }

    /** The leader's last critical section: take the key out and broadcast. */
    method FetchDone(t: TaskId, reply: Reply)
      requires Valid() && t in tasks && tasks[t].Leading?
      modifies this
      ensures Valid() && View() == Step(old(View()), Event.FetchDone(t, reply))
      ensures var l := old(tasks[t]);
              && inFlight == old(inFlight) - {l.key}
              && tasks == old(tasks)[t := Returned(l.key, l.channel, l.enteredAt, reply)]
              && channels == old(channels)[l.channel := old(channels)[l.channel].(sent := [reply],
                                                                                  settledAt := Some(old(clock)))]
    {
      assert LeaderOwnsEntry(View(), t) && EntryHasLeader(View(), tasks[t].key);
      StepKeepsInv(View(), Event.FetchDone(t, reply));
      var l := tasks[t];
      if l.key in inFlight {
        var c := inFlight[l.key];
        inFlight := inFlight - {l.key};
        assert channels[c].sent + [reply] == [reply];
        channels := channels[c := channels[c].(sent := channels[c].sent + [reply], settledAt := Some(clock))];
      }
      tasks := tasks[t := Returned(l.key, l.channel, l.enteredAt, reply)];
      clock := clock + 1;
    }

    /** DropGuard::drop of a leader that panicked or was cancelled: take the key out, dropping the sender. */
    method DropGuard(t: TaskId)
      requires Valid() && t in tasks && tasks[t].Leading?
      modifies this
      ensures Valid() && View() == Step(old(View()), LeaderDropped(t))
      ensures var l := old(tasks[t]);
              && inFlight == old(inFlight) - {l.key}
              && tasks == old(tasks)[t := Gone(l.key, l.channel, l.enteredAt)]
              && channels == old(channels)[l.channel := old(channels)[l.channel].(settledAt := Some(old(clock)))]
    {
      assert LeaderOwnsEntry(View(), t) && EntryHasLeader(View(), tasks[t].key);
      StepKeepsInv(View(), LeaderDropped(t));
      var l := tasks[t];
      if l.key in inFlight {
        var c := inFlight[l.key];
        inFlight := inFlight - {l.key};
        assert channels[c].sent + [] == channels[c].sent;
        channels := channels[c := channels[c].(settledAt := Some(clock))];
      }
      tasks := tasks[t := Gone(l.key, l.channel, l.enteredAt)];
      clock := clock + 1;
    }

    /** A poll of `rx.recv()`; None while nothing has arrived. The lagging branch is written for any channel, so this
        asks for less than Valid(); EveryReplyIsTheLeaders shows it is never taken. */
    method Recv(t: TaskId) returns (reply: Option<Reply>)
      requires WellFormed(View()) && t in tasks && tasks[t].Waiting?
      modifies this
      ensures View() == Step(old(View()), Event.Recv(t))
      ensures old(Valid()) ==> Valid()
      ensures reply.Some? <==> tasks[t].Returned?
      ensures reply.Some? ==> reply.value == tasks[t].reply
      ensures var w := old(tasks[t]);
              var sent := old(channels)[w.channel].sent;
              var lags := w.cursor + old(channels)[w.channel].capacity < |sent|;
              && laggedCount == old(laggedCount) + (if lags then 1 else 0)
              && reply == if lags then Some(Failed)
                          else if w.cursor < |sent| then Some(sent[w.cursor])
                          else if old(channels)[w.channel].settledAt.Some? then Some(Failed) else None
    {
      if Valid() { StepKeepsInv(View(), Event.Recv(t)); }
      var w := tasks[t];
      var ch := channels[w.channel];
      reply := None;
      if w.cursor + ch.capacity < |ch.sent| {
        laggedCount := laggedCount + 1;
        reply := Some(Failed);
      } else if w.cursor < |ch.sent| {
        reply := Some(ch.sent[w.cursor]);
      } else if ch.settledAt.Some? {
        reply := Some(Failed);
      }
      if reply.Some? {
        tasks := tasks[t := Returned(w.key, w.channel, w.enteredAt, reply.value)];
      }
      clock := clock + 1;
    }

    method CancelSubscriber(t: TaskId)
      requires Valid() && t in tasks && tasks[t].Waiting?
      modifies this
      ensures Valid() && View() == Step(old(View()), SubscriberCancelled(t))
      ensures var w := old(tasks[t]); tasks == old(tasks)[t := Gone(w.key, w.channel, w.enteredAt)]
      ensures inFlight == old(inFlight) && channels == old(channels) && laggedCount == old(laggedCount)
    {
      StepKeepsInv(View(), SubscriberCancelled(t));
      var w := tasks[t];
      tasks := tasks[t := Gone(w.key, w.channel, w.enteredAt)];
      clock := clock + 1;
    }
  }
}
