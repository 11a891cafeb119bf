/**
 Any number of cache operations running at once. A locked section is one step; unlocked loads of the counter, disk
 work and the sections of other operations come in between. An unlocked load may see any value, so in particular a
 stale one or one from the middle of another section; disk reads may find a file or not.
 */
module CacheInterleaving {
  import opened Wrappers
  import opened MapSum
  import opened CacheIndex

  type TaskId = nat

  const WORD: nat := 0x1_0000_0000_0000_0000

  /** What an operation does next. */
  datatype Phase =
    | Sized(key: Key, entry: Entry)                  // a put that passed the size test, about to load the counter
    | Evicting(then_: Option<(Key, Entry)>, needed: nat)
    | Deleting(then_: Option<(Key, Entry)>)          // deleting files outside the lock
    | Writing(key: Key, entry: Entry)
    | Registering(key: Key, entry: Entry)
    | RollingBack
    | Reading(key: Key)
    | Forgetting(key: Key)
    | Done

  datatype State = State(locked: Locked, max: nat, tasks: map<TaskId, Phase>)

  datatype Event =
    | PutBegin(task: TaskId, key: Key, entry: Entry)
    | PutLoad(task: TaskId, observed: nat)
    | EvictToLoad(task: TaskId, observed: nat, target: nat)
    | EvictLocked(task: TaskId, order: seq<Key>)
    | DeleteFiles(task: TaskId)
    | WriteFiles(task: TaskId)
    | RegisterLocked(task: TaskId)
    | Rollback(task: TaskId)
    | LookupLocked(task: TaskId, key: Key, allowStale: bool, now: int)
    | ReadFiles(task: TaskId, found: bool)
    | ForgetLocked(task: TaskId)
    | PurgeLocked(task: TaskId, keys: set<Key>)
    | ClearLocked(task: TaskId)

  function AfterFiles(then_: Option<(Key, Entry)>): Phase {
    if then_.Some? then Writing(then_.value.0, then_.value.1) else Done
  }

  ghost predicate At(s: State, t: TaskId, p: Phase) {
    t in s.tasks && s.tasks[t] == p
  }

  function Go(s: State, t: TaskId, p: Phase): State {
    s.(tasks := s.tasks[t := p])
  }

  /** One step; a step its operation cannot take changes nothing. */
  ghost function Step(s: State, e: Event): State {
    var t := e.task;
    var starts := t !in s.tasks;
    var p := if starts then Done else s.tasks[t];
    match e
    case PutBegin(_, key, entry) =>
      if starts then Go(s, t, if entry.sizeBytes > s.max then Done else Sized(key, entry)) else s
    case PutLoad(_, observed) =>
      if p.Sized? then
        Go(s, t, if observed + p.entry.sizeBytes > s.max
                 then Evicting(Some((p.key, p.entry)), observed + p.entry.sizeBytes - s.max)
                 else Writing(p.key, p.entry))
      else s
    case EvictToLoad(_, observed, target) =>
      if starts then Go(s, t, if observed <= target then Done else Evicting(None, observed - target)) else s
    case EvictLocked(_, keys) =>
      if p.Evicting? && Enumerates(keys, s.locked.index) then
        Go(s, t, Deleting(p.then_)).(locked := Evict(s.locked, keys, p.needed))
      else s
    case DeleteFiles(_) => if p.Deleting? then Go(s, t, AfterFiles(p.then_)) else s
    case WriteFiles(_) => if p.Writing? then Go(s, t, Registering(p.key, p.entry)) else s
    case RegisterLocked(_) =>
      if p.Registering? then
        Go(s, t, if Fits(s.locked, s.max, p.key, p.entry) then Done else RollingBack)
          .(locked := Register(s.locked, s.max, p.key, p.entry))
      else s
    case Rollback(_) => if p.RollingBack? then Go(s, t, Done) else s
    case LookupLocked(_, key, allowStale, now) =>
      if starts then
        Go(s, t, if key !in s.locked.index then Done
                 else if Expired(s.locked.index[key], now) && !allowStale then Deleting(None) else Reading(key))
          .(locked := Lookup(s.locked, key, allowStale, now))
      else s
    case ReadFiles(_, found) => if p.Reading? then Go(s, t, if found then Done else Forgetting(p.key)) else s
    case ForgetLocked(_) => if p.Forgetting? then Go(s, t, Done).(locked := Remove(s.locked, p.key)) else s
    case PurgeLocked(_, keys) =>
      if starts then Go(s, t, Deleting(None)).(locked := Purge(s.locked, keys)) else s
    case ClearLocked(_) =>
      if starts then Go(s, t, Deleting(None)).(locked := Locked(map[], 0)) else s
  }

  ghost function RunFrom(s: State, events: seq<Event>): State
    decreases |events|
  {
    if events == [] then s else RunFrom(Step(s, events[0]), events[1..])
  }

  function Empty(max: nat): State { State(Locked(map[], 0), max, map[]) }

  lemma StepKeepsAccount(s: State, e: Event)
    requires Accounted(s.locked, s.max)
    ensures Accounted(Step(s, e).locked, s.max) && Step(s, e).max == s.max
  {
    var p := if e.task in s.tasks then s.tasks[e.task] else Done;
    match e {
      case EvictLocked(_, keys) =>
        if p.Evicting? && Enumerates(keys, s.locked.index) { EvictKeepsAccount(s.locked, s.max, keys, p.needed); }
      case RegisterLocked(_) =>
        if p.Registering? { RegisterKeepsAccount(s.locked, s.max, p.key, p.entry); }
      case LookupLocked(_, key, allowStale, now) => LookupKeepsAccount(s.locked, s.max, key, allowStale, now);
      case ForgetLocked(_) => if p.Forgetting? { RemoveKeepsAccount(s.locked, s.max, p.key); }
      case PurgeLocked(_, keys) => PurgeKeepsAccount(s.locked, s.max, keys);
      case ClearLocked(_) => assert Sizes(map[]) == map[];
      case _ =>
    }
  }

  lemma {:induction false} RunKeepsAccount(s: State, events: seq<Event>)
    requires Accounted(s.locked, s.max)
    ensures Accounted(RunFrom(s, events).locked, s.max) && RunFrom(s, events).max == s.max
    decreases |events|
  {
    if events != [] {
      StepKeepsAccount(s, events[0]);
      RunKeepsAccount(Step(s, events[0]), events[1..]);
    }
  }

  /** At every lock release of every interleaving the byte counter is the sum over the index, which is the sum over the
      domain statistics, and it is within capacity. */
  lemma CounterIsExactAndBounded(max: nat, events: seq<Event>)
    ensures var s := RunFrom(Empty(max), events);
            && 0 <= s.locked.size == Total(s.locked.index) <= max
            && s.locked.size == Sum(SizesByDomain(StatsOf(s.locked.index)))
  {
    assert Sizes(map[]) == map[];
    RunKeepsAccount(Empty(max), events);
    StatsSumToTotal(RunFrom(Empty(max), events).locked.index);
  }

  /** No subtraction underflows: at every release the counter covers any entry, and any set of entries, to be taken
      out. */
  lemma CounterNeverUnderflows(max: nat, events: seq<Event>, key: Key, keys: set<Key>)
    ensures var s := RunFrom(Empty(max), events).locked;
            Remove(s, key).size >= 0 && Purge(s, keys).size >= 0
  {
    assert Sizes(map[]) == map[];
    RunKeepsAccount(Empty(max), events);
    RemoveKeepsAccount(RunFrom(Empty(max), events).locked, max, key);
    PurgeKeepsAccount(RunFrom(Empty(max), events).locked, max, keys);
  }

  // ---- The re-check is needed ----

  /** The steps of a put up to its registration, when the counter reads `observed`. */
  function PutUntilRegistering(t: TaskId, key: Key, entry: Entry, observed: nat): seq<Event> {
    [PutBegin(t, key, entry), PutLoad(t, observed), WriteFiles(t)]
  }

  lemma PutReachesRegistering(s: State, t: TaskId, key: Key, entry: Entry, observed: nat)
    requires t !in s.tasks && observed + entry.sizeBytes <= s.max
    ensures RunFrom(s, PutUntilRegistering(t, key, entry, observed)) == Go(s, t, Registering(key, entry))
  {
    var s1, s2 := Go(s, t, Sized(key, entry)), Go(s, t, Writing(key, entry));
    var events := PutUntilRegistering(t, key, entry, observed);
    assert s1.tasks[t := Writing(key, entry)] == s2.tasks;
    assert s2.tasks[t := Registering(key, entry)] == Go(s, t, Registering(key, entry)).tasks;
    assert Step(s, events[0]) == s1 && Step(s1, events[1]) == s2;
    assert events[1..] == [events[1], events[2]] && events[1..][1..] == [events[2]];
    assert RunFrom(s2, [events[2]]) == Step(s2, events[2]);
    assert RunFrom(s1, events[1..]) == Step(s2, events[2]);
  }

  /** Two puts that both saw room for themselves can both get as far as registering, with no room for the second once
      the first is in: only the second look at the counter keeps the bound. */
  lemma RacingPutsNeedTheRecheck(max: nat, a: Key, b: Key, e: Entry, f: Entry)
    requires a != b && e.sizeBytes <= max && f.sizeBytes <= max < e.sizeBytes + f.sizeBytes
    ensures var s := RunFrom(RunFrom(Empty(max), PutUntilRegistering(0, a, e, 0)), PutUntilRegistering(1, b, f, 0));
            var first := Step(s, RegisterLocked(0));
            var second := Step(first, RegisterLocked(1));
            && first.locked == Locked(map[a := e], e.sizeBytes) && At(first, 0, Done)
            && second.locked == first.locked && At(second, 1, RollingBack)
            && Total(first.locked.index[b := f]) > max
  {
    PutReachesRegistering(Empty(max), 0, a, e, 0);
    PutReachesRegistering(Go(Empty(max), 0, Registering(a, e)), 1, b, f, 0);
    TotalUpdate(map[], a, e);
    TotalUpdate(map[a := e], b, f);
    assert Sizes(map[]) == map[];
    assert map[][a := e] == map[a := e];
  }

  // ---- One operation on its own ----

  /** What a put does once it has loaded the counter as it is, up to its registration. */
  ghost function PutAlone(s: State, t: TaskId, key: Key, entry: Entry, keys: seq<Key>): State
    requires s.locked.size >= 0
  {
    var loaded := Step(Step(s, PutBegin(t, key, entry)), PutLoad(t, s.locked.size));
    var evicted := Step(Step(loaded, EvictLocked(t, keys)), DeleteFiles(t));
    Step(Step(evicted, WriteFiles(t)), RegisterLocked(t))
  }

  lemma LoadsAlone(s: State, t: TaskId, key: Key, entry: Entry)
    requires s.locked.size >= 0 && t !in s.tasks && entry.sizeBytes <= s.max
    ensures var loaded := Step(Step(s, PutBegin(t, key, entry)), PutLoad(t, s.locked.size));
            var needed := s.locked.size + entry.sizeBytes - s.max;
            && loaded.locked == s.locked && loaded.max == s.max
            && At(loaded, t, if needed > 0 then Evicting(Some((key, entry)), needed) else Writing(key, entry))
  {}

  lemma EvictsAlone(s: State, t: TaskId, then_: Option<(Key, Entry)>, needed: nat, keys: seq<Key>)
    requires At(s, t, Evicting(then_, needed)) && Enumerates(keys, s.locked.index)
    ensures var evicted := Step(Step(s, EvictLocked(t, keys)), DeleteFiles(t));
            && At(evicted, t, AfterFiles(then_)) && evicted.max == s.max
            && evicted.locked == Evict(s.locked, keys, needed)
  {}

  lemma RoomMade(s: State, t: TaskId, key: Key, entry: Entry, keys: seq<Key>)
    requires Accounted(s.locked, s.max) && t !in s.tasks && Enumerates(keys, s.locked.index)
    requires entry.sizeBytes <= s.max
    ensures s.locked.size >= 0
    ensures var loaded := Step(Step(s, PutBegin(t, key, entry)), PutLoad(t, s.locked.size));
            var evicted := Step(Step(loaded, EvictLocked(t, keys)), DeleteFiles(t));
            && At(evicted, t, Writing(key, entry)) && evicted.max == s.max
            && evicted.locked.index
               == s.locked.index - VictimKeys(s.locked.index, keys, s.locked.size + entry.sizeBytes - s.max)
            && evicted.locked.size + entry.sizeBytes <= s.max
  {
    var needed := s.locked.size + entry.sizeBytes - s.max;
    LoadsAlone(s, t, key, entry);
    if needed > 0 {
      var loaded := Step(Step(s, PutBegin(t, key, entry)), PutLoad(t, s.locked.size));
      EvictsAlone(loaded, t, Some((key, entry)), needed, keys);
      EvictionFrees(s.locked, s.max, keys, needed);
    } else {
      NothingNeededNothingEvicted(s.locked.index, keys, needed);
      assert s.locked.index - {} == s.locked.index;
    }
  }

  lemma RegistersAlone(s: State, t: TaskId, key: Key, entry: Entry)
    requires At(s, t, Writing(key, entry)) && s.locked.size + entry.sizeBytes <= s.max
    ensures var after := Step(Step(s, WriteFiles(t)), RegisterLocked(t));
            At(after, t, Done) && after.locked.index == s.locked.index[key := entry]
  {
    assert (s.locked.index - {key})[key := entry] == s.locked.index[key := entry];
  }

  /** Undisturbed, a put of an entry no larger than the cache evicts what the sequential put evicts and ends with its
      entry indexed. */
  lemma PutAloneIsSequential(s: State, t: TaskId, key: Key, entry: Entry, keys: seq<Key>)
    requires Accounted(s.locked, s.max) && t !in s.tasks && Enumerates(keys, s.locked.index)
    requires entry.sizeBytes <= s.max
    ensures var after := PutAlone(s, t, key, entry, keys);
            && At(after, t, Done)
            && after.locked.index
               == (s.locked.index - VictimKeys(s.locked.index, keys, s.locked.size + entry.sizeBytes - s.max))
                  [key := entry]
  {
    RoomMade(s, t, key, entry, keys);
    var loaded := Step(Step(s, PutBegin(t, key, entry)), PutLoad(t, s.locked.size));
    RegistersAlone(Step(Step(loaded, EvictLocked(t, keys)), DeleteFiles(t)), t, key, entry);
  }

  /** A larger one ends at once and changes nothing. */
  lemma OversizePutEnds(s: State, t: TaskId, key: Key, entry: Entry, keys: seq<Key>)
    requires s.locked.size >= 0 && t !in s.tasks && entry.sizeBytes > s.max
    ensures var after := PutAlone(s, t, key, entry, keys);
            At(after, t, Done) && after.locked == s.locked
  {}

  /** A lookup counts and touches a fresh entry, leaves an expired one alone if stale ones are allowed and takes it out
      if not, and forgets an entry whose file is not found. */
  lemma LookupAlone(s: State, t: TaskId, key: Key, allowStale: bool, now: int, found: bool)
    requires t !in s.tasks
    ensures var index, looked := s.locked.index, Step(s, LookupLocked(t, key, allowStale, now));
            var done := Step(Step(looked, ReadFiles(t, found)), ForgetLocked(t));
            && (key !in index ==> looked.locked == s.locked && At(looked, t, Done))
            && (key in index && (index[key].expiresAt.None? || now <= index[key].expiresAt.value) ==>
                  looked.locked.index
                  == index[key := index[key].(hitCount := index[key].hitCount + 1, accessedAt := now)])
            && (key in index && index[key].expiresAt.Some? && now > index[key].expiresAt.value ==>
                  looked.locked.index == if allowStale then index else index - {key})
            && (key in index && key in looked.locked.index ==>
                  && At(looked, t, Reading(key)) && At(done, t, Done)
                  && done.locked.index == if found then looked.locked.index else index - {key})
  {
    var looked := Step(s, LookupLocked(t, key, allowStale, now));
    assert key in s.locked.index && key in looked.locked.index ==>
        looked.locked.index - {key} == s.locked.index - {key};
  }

  /** A purge takes out exactly its keys, and a full purge everything. */
  lemma PurgesAlone(s: State, t: TaskId, keys: set<Key>)
    requires t !in s.tasks
    ensures Step(s, PurgeLocked(t, keys)).locked.index == s.locked.index - keys
    ensures Step(s, ClearLocked(t)).locked == Locked(map[], 0)
  {}

  /** Evicting to a target ends at or below it with the oldest entries gone, and does nothing if usage is there. */
  lemma EvictToAlone(s: State, t: TaskId, target: nat, keys: seq<Key>)
    requires Accounted(s.locked, s.max) && t !in s.tasks && Enumerates(keys, s.locked.index)
    ensures s.locked.size >= 0
    ensures var after := Step(Step(s, EvictToLoad(t, s.locked.size, target)), EvictLocked(t, keys));
            && after.locked.size <= target && Accounted(after.locked, s.max)
            && after.locked.index == s.locked.index - VictimKeys(s.locked.index, keys, s.locked.size - target)
  {
    var needed := s.locked.size - target;
    if needed > 0 {
      EvictionFrees(s.locked, s.max, keys, needed);
    } else {
      NothingNeededNothingEvicted(s.locked.index, keys, needed);
      assert s.locked.index - {} == s.locked.index;
    }
  }

  // ---- The size tests are sums of words ----

  /** Neither sum that a put of `entry` compares with the capacity reaches 2^64: the one of an unlocked load that read
      `observed`, and the one under the lock. */
  ghost predicate SizeTestsFit(s: Locked, observed: nat, key: Key, entry: Entry) {
    observed + entry.sizeBytes < WORD && s.size + NetIncrease(s, key, entry) < WORD
  }

  /** An unlocked load reads at most the capacity: within its section an operation only lowers the counter, or brings it
      up to where the section leaves it. */
  ghost predicate AlwaysFits(max: nat, events: seq<Event>) {
    forall observed: nat, key, entry: Entry :: observed <= max && entry.sizeBytes <= max ==>
      SizeTestsFit(RunFrom(Empty(max), events).locked, observed, key, entry)
  }

  lemma {:induction false} RunAppend(s: State, events: seq<Event>, e: Event)
    ensures RunFrom(s, events + [e]) == Step(RunFrom(s, events), e)
    decreases |events|
  {
    if events == [] {
      assert [e][1..] == [];
    } else {
      assert (events + [e])[1..] == events[1..] + [e];
      RunAppend(Step(s, events[0]), events[1..], e);
    }
  }

  /** One put that fills the cache, as steps. */
  lemma FillingPut(max: nat, key: Key, entry: Entry) returns (events: seq<Event>)
    requires entry.sizeBytes == max
    ensures RunFrom(Empty(max), events).locked == Locked(map[key := entry], max)
  {
    var puts := PutUntilRegistering(0, key, entry, 0);
    PutReachesRegistering(Empty(max), 0, key, entry, 0);
    RunAppend(Empty(max), puts, RegisterLocked(0));
    events := puts + [RegisterLocked(0)];
    assert map[][key := entry] == map[key := entry];
  }

  /** Added as 64-bit words the two sums still pass or fail the comparison as they should. */
  ghost predicate WrappedTestsAgree(s: Locked, max: nat, observed: nat, key: Key, entry: Entry) {
    && ((observed + entry.sizeBytes) % WORD > max <==> observed + entry.sizeBytes > max)
    && ((s.size + NetIncrease(s, key, entry)) % WORD > max <==> !Fits(s, max, key, entry))
  }

  ghost predicate AlwaysAgrees(max: nat, events: seq<Event>) {
    forall observed: nat, key, entry: Entry :: observed <= max && entry.sizeBytes <= max ==>
      WrappedTestsAgree(RunFrom(Empty(max), events).locked, max, observed, key, entry)
  }

  lemma SmallSumsFit(s: Locked, max: nat)
    requires max < 0x8000_0000_0000_0000 && 0 <= s.size <= max
    ensures forall observed: nat, key, entry: Entry :: observed <= max && entry.sizeBytes <= max ==>
              SizeTestsFit(s, observed, key, entry)
    ensures forall observed: nat, key, entry: Entry :: observed <= max && entry.sizeBytes <= max ==>
              WrappedTestsAgree(s, max, observed, key, entry)
  {
    forall observed: nat, key, entry: Entry | observed <= max && entry.sizeBytes <= max
      ensures SizeTestsFit(s, observed, key, entry) && WrappedTestsAgree(s, max, observed, key, entry)
    {
      var a, b := observed + entry.sizeBytes, s.size + NetIncrease(s, key, entry);
      assert a < WORD && b < WORD && a % WORD == a && b % WORD == b;
    }
  }

  lemma OverflowMisleads(s: Locked, max: nat, k: Key, l: Key, entry: Entry)
    requires 0x8000_0000_0000_0000 <= max < WORD && k != l && entry.sizeBytes == max
    requires s == Locked(map[k := entry], max)
    ensures !SizeTestsFit(s, max, l, entry) && !WrappedTestsAgree(s, max, max, l, entry)
  {
    assert (max + max) % WORD == max + max - WORD;
  }

  /** The sums of every run stay below 2^64, and the tests that wrap decide as they should, if and only if the capacity
      is below 2^63. Otherwise one put can fill the cache so far that the tests for another of its size let it in. */
  lemma SizeTestsFitExactly(max: nat)
    requires max < WORD
    ensures max < 0x8000_0000_0000_0000 <==> forall events :: AlwaysFits(max, events)
    ensures max < 0x8000_0000_0000_0000 <==> forall events :: AlwaysAgrees(max, events)
  {
    if max < 0x8000_0000_0000_0000 {
      forall events ensures AlwaysFits(max, events) && AlwaysAgrees(max, events) {
        CounterIsExactAndBounded(max, events);
        SmallSumsFit(RunFrom(Empty(max), events).locked, max);
      }
    } else {
      var entry := Entry("", "", None, max, 0, 0, 0, None, false, []);
      var events := FillingPut(max, "k", entry);
      OverflowMisleads(RunFrom(Empty(max), events).locked, max, "k", "l", entry);
      assert !AlwaysFits(max, events) && !AlwaysAgrees(max, events);
    }
  }
}
