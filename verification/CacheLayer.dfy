/**
 The disk cache as one caller at a time sees it: an index and byte counter in memory, bodies and side files on disk.
 File writes succeed. Times are nanoseconds. The order in which a hash map hands out its keys is a parameter.
 */
module DiskCache {
  import opened Wrappers
  import opened MapSum
  import opened Sorting
  import opened CacheIndex
  import opened CacheContents

  // ---- Entries and hits ----

  lemma RoomAlready(index: Index, files: map<string, Bytes>, keys: seq<Key>, needed: int)
    requires needed <= 0 && forall k :: k in keys ==> k in index
    ensures VictimKeys(index, keys, needed) == {}
    ensures index - VictimKeys(index, keys, needed) == index
    ensures WithoutFiles(files, VictimKeys(index, keys, needed)) == files
  {
    NothingNeededNothingEvicted(index, keys, needed);
  }

  function PutChange(key: Key, body: Bytes, br: Option<Bytes>, e: Entry, evicted: set<Key>): Change {
    Accepted(key, Stored(body, e.contentType, Variant(br), e.cachedHeaders), e.expiresAt, evicted)
  }

  /** What a put does to index and disk is what its history entry does to the plain map, while keys have separate
      files. */
  lemma PutRefines(index: Index, files: map<string, Bytes>, history: seq<Change>, key: Key, e: Entry, body: Bytes,
                   br: Option<Bytes>, json: Bytes, evicted: set<Key>)
    requires e.sizeBytes == |body| && e.hasBr == Variant(br).Some? && evicted <= index.Keys
    ensures var index' := (index - evicted)[key := e];
            var files' := Written(WithoutFiles(files, evicted), key, body, br, e.cachedHeaders, json);
            var change := PutChange(key, body, br, e, evicted);
            && AllOnDisk(index, files) && SeparateFiles(index.Keys) && SeparateFiles(index'.Keys)
            && ContentsOf(index, files) == ApplyAll(map[], history) ==>
              && AllOnDisk(index', files')
              && ContentsOf(index', files') == ApplyAll(map[], history + [change])
    ensures Dated(index, history) ==>
              Dated((index - evicted)[key := e], history + [PutChange(key, body, br, e, evicted)])
  {
    var change := PutChange(key, body, br, e, evicted);
    ApplyAllAppend(map[], history, change);
    if Dated(index, history) { DatedAfterPut(index, history, evicted, change, e); }
    var index' := (index - evicted)[key := e];
    if AllOnDisk(index, files) && SeparateFiles(index.Keys) && SeparateFiles(index'.Keys) {
      RemovalKeepsTheRest(index, files, evicted);
      assert index'.Keys == (index - evicted).Keys + {key};
      WriteStores(index - evicted, WithoutFiles(files, evicted), key, e, body, br, e.cachedHeaders, json);
    }
  }

  lemma VictimsAreKeys(index: Index, keys: seq<Key>, needed: int)
    requires Enumerates(keys, index)
    ensures VictimKeys(index, keys, needed) <= index.Keys
  {
    VictimsAreOldest(Locked(index, 0), keys, needed);
  }

  function SaturatingSub(a: nat, b: nat): nat {
    if a > b then a - b else 0
  }

  function NewEntry(url: string, domain: string, contentType: Option<string>, size: nat, ttl: Option<nat>, hasBr: bool,
                    cachedHeaders: Headers, now: int): Entry
  {
    var expiresAt := if ttl.Some? then Some(now + ttl.value) else None;
    Entry(url, domain, contentType, size, 0, now, now, expiresAt, hasBr, cachedHeaders)
  }

  function HitOf(stored: Stored, e: Entry, now: int): Hit {
    Hit(stored, Expired(e, now), if e.expiresAt.Some? then e.expiresAt.value / NANOS_PER_SECOND else 0)
  }

  /** The usage test that opens evict_to_ratio, over real numbers. */
  predicate Reached(current: nat, max: nat, ratio: real) {
    max > 0 && current as real / max as real >= ratio
  }

  /** Usage has reached a ratio once the used bytes are at least that ratio of a capacity above zero. */
  lemma ReachedMeans(current: nat, max: nat, ratio: real)
    ensures Reached(current, max, ratio) <==> max > 0 && current as real >= ratio * max as real
  {
    if max > 0 {
      var usage := current as real / max as real;
      assert usage * max as real == current as real;
      assert usage >= ratio ==> usage * max as real >= ratio * max as real;
      assert usage < ratio ==> usage * max as real < ratio * max as real;
    }
  }

  /** A float cast to u64 truncates, and takes negative values to zero. */
  function TargetBytes(max: nat, ratio: real): nat {
    if max as real * ratio < 0.0 then 0 else (max as real * ratio).Floor
  }

  /** The target is the whole number of bytes at or just below the ratio of the capacity, and never negative. */
  lemma TargetMeans(max: nat, ratio: real, bytes: nat)
    ensures bytes <= TargetBytes(max, ratio) <==> bytes == 0 || bytes as real <= max as real * ratio
  {}

  /** There is room for an entry if and only if it fits beside the other keys' entries. */
  lemma RoomWithout(s: Locked, max: nat, key: Key, e: Entry)
    requires Accounted(s, max)
    ensures Fits(s, max, key, e) <==> Total(s.index - {key}) + e.sizeBytes <= max
    ensures Register(s, max, key, e).index
         == if Total(s.index - {key}) + e.sizeBytes <= max then s.index[key := e] else s.index
  {
    if key in s.index { TotalRemove(s.index, key); } else { assert s.index - {key} == s.index; }
    assert (s.index - {key})[key := e] == s.index[key := e];
  }

  lemma FitsBeside(s: Locked, max: nat, key: Key, e: Entry)
    requires Accounted(s, max) && s.size + e.sizeBytes <= max
    ensures Total(s.index - {key}) + e.sizeBytes <= max
  {
    if key in s.index { TotalRemove(s.index, key); } else { assert s.index - {key} == s.index; }
  }

  /** A lookup changes no stored content; the one entry it may delete loses its files too. */
  lemma LookupKeepsDisk(s: Locked, files: map<string, Bytes>, key: Key, allowStale: bool, now: int)
    requires AllOnDisk(s.index, files) && SeparateFiles(s.index.Keys)
    ensures var s' := Lookup(s, key, allowStale, now);
            if key in s.index && Expired(s.index[key], now) && !allowStale then
              && AllOnDisk(s'.index, WithoutFiles(files, {key}))
              && ContentsOf(s'.index, WithoutFiles(files, {key})) == ContentsOf(s.index, files) - {key}
            else AllOnDisk(s'.index, files) && ContentsOf(s'.index, files) == ContentsOf(s.index, files)
  {
    var s' := Lookup(s, key, allowStale, now);
    if key in s.index && Expired(s.index[key], now) && !allowStale {
      RemovalKeepsTheRest(s.index, files, {key});
    } else {
      forall k | k in s'.index
        ensures OnDisk(k, s'.index[k], files) && StoredAt(k, s'.index[k], files) == StoredAt(k, s.index[k], files)
      {
        assert OnDisk(k, s.index[k], files);
      }
    }
  }

  /** The keys that pass a filter, in their order. */
  function Matches(keys: seq<Key>, p: Key -> bool): (m: seq<Key>)
    ensures forall k :: k in m <==> k in keys && p(k)
    ensures Distinct(keys) ==> Distinct(m)
  {
    if keys == [] then [] else (if p(keys[0]) then [keys[0]] else []) + Matches(keys[1..], p)
  }

  ghost function Elements(keys: seq<Key>): set<Key> {
    set k | k in keys
  }

  lemma MatchesAre(m: seq<Key>, gone: set<Key>)
    requires Distinct(m) && forall k :: k in m <==> k in gone
    ensures Elements(m) == gone && |m| == |gone|
    decreases |m|
  {
    if m != [] {
      var last := m[|m| - 1];
      forall k ensures k in m[..|m| - 1] <==> k in gone - {last} {
        if k in m && k != last {
          var i :| 0 <= i < |m| && m[i] == k;
          assert m[..|m| - 1][i] == k;
        }
      }
      MatchesAre(m[..|m| - 1], gone - {last});
    }
  }

  lemma AllFreed(index: Index, keys: seq<Key>)
    requires Enumerates(keys, index)
    ensures Freed(Candidates(index, keys)) == Total(index)
  {
    var cs := Candidates(index, keys);
    RemovingDescribed(cs, index);
    forall k | k in index ensures k in KeysOf(cs) {
      var i :| 0 <= i < |keys| && keys[i] == k;
      assert cs[i].0 == k;
    }
    assert index - KeysOf(cs) == map[];
    assert Sizes(map[]) == map[];
  }

  lemma EmptyIsIntact(files: map<string, Bytes>)
    ensures Total(map[]) == 0 && AllOnDisk(map[], files) && ContentsOf(map[], files) == map[] && SeparateFiles({})
  {
    assert Sizes(map[]) == map[];
  }

  /** What is indexed is what the history keeps, as last put and with the deadline of that put. */
  lemma IndexFollowsHistory(index: Index, files: map<string, Bytes>, history: seq<Change>, key: Key)
    requires AllOnDisk(index, files) && ContentsOf(index, files) == ApplyAll(map[], history) && Dated(index, history)
    ensures key in index <==> Kept(history, key)
    ensures key in index ==>
              && LastAccepted(history, key) == Some(ContentsOf(index, files)[key])
              && LastDeadline(history, key) == index[key].expiresAt
  {
    ContentsAreLastAcceptedPuts(history, key);
  }

  lemma DropNoted(index: Index, files: map<string, Bytes>, history: seq<Change>, keys: set<Key>)
    requires AllOnDisk(index, files) && Dated(index, history)
    requires ContentsOf(index, files) == ApplyAll(map[], history) - keys
    ensures Dated(index, history + [Dropped(keys)])
    ensures ContentsOf(index, files) == ApplyAll(map[], history + [Dropped(keys)])
  {
    ApplyAllAppend(map[], history, Dropped(keys));
    StillDated(index, index, history, keys);
  }

  // ---- The eviction loop ----

  /** The keys of some candidates, in order. */
  function Names(cs: seq<Candidate>): seq<Key> {
    seq(|cs|, i requires 0 <= i < |cs| => cs[i].0)
  }

  /** The index and counter once the first `i` candidates are gone. */
  ghost function Taken(s: Locked, cs: seq<Candidate>, i: nat): Locked
    requires i <= |cs|
  {
    Locked(s.index - KeysOf(cs[..i]), s.size - Freed(cs[..i]))
  }

  lemma {:induction false} FreedAppend(cs: seq<Candidate>, i: nat)
    requires i < |cs|
    ensures Freed(cs[..i + 1]) == Freed(cs[..i]) + cs[i].2
  {
    if i > 0 {
      FreedAppend(cs[1..], i - 1);
      assert cs[..i + 1][1..] == cs[1..][..i] && cs[..i][1..] == cs[1..][..i - 1];
    }
  }

  /** Taking the next candidate moves on by one, and does not underflow the counter. */
  lemma TakenStep(s: Locked, max: nat, cs: seq<Candidate>, i: nat)
    requires Accounted(s, max) && Describes(cs, s.index) && i < |cs|
    ensures var t := Taken(s, cs, i);
            && Taken(s, cs, i + 1) == Locked(t.index - {cs[i].0}, t.size - cs[i].2)
            && t.size - cs[i].2 >= 0
            && Names(cs[..i + 1]) == Names(cs[..i]) + [cs[i].0]
            && Freed(cs[..i + 1]) == Freed(cs[..i]) + cs[i].2
  {
    FreedAppend(cs, i);
    PrefixDescribes(cs[..i + 1], cs, s.index);
    RemovingDescribed(cs[..i + 1], s.index);
    assert KeysOf(cs[..i + 1]) == KeysOf(cs[..i]) + {cs[i].0} by {
      assert forall j :: 0 <= j < i ==> cs[..i + 1][j] == cs[..i][j];
      assert cs[..i + 1][i] == cs[i];
    }
  }

  lemma {:induction false} StoppedLoopTookVictims(cs: seq<Candidate>, needed: int, i: nat)
    requires i <= |cs| && (i == |cs| || Freed(cs[..i]) >= needed)
    requires i > 0 ==> Freed(cs[..i - 1]) < needed
    ensures Victims(cs, needed) == cs[..i]
    decreases i
  {
    if i > 0 {
      assert cs[..i][1..] == cs[1..][..i - 1] && cs[..i] == [cs[0]] + cs[1..][..i - 1];
      if i > 1 {
        assert cs[..i - 1][1..] == cs[1..][..i - 2];
      }
      StoppedLoopTookVictims(cs[1..], needed - cs[0].2, i - 1);
    }
  }

  lemma TakenIsEvict(s: Locked, keys: seq<Key>, needed: int, i: nat)
    requires forall k :: k in keys ==> k in s.index
    requires i <= |AccessOrder(s.index, keys)|
    requires Victims(AccessOrder(s.index, keys), needed) == AccessOrder(s.index, keys)[..i]
    ensures Taken(s, AccessOrder(s.index, keys), i) == Evict(s, keys, needed)
  {}

  /** The eviction loop after `i` rounds: so far every candidate in order was taken, and the last one was needed. */
  ghost predicate Evicting(s: Locked, max: nat, cs: seq<Candidate>, needed: nat, i: nat, now: Locked, freed: nat,
                           paths: seq<Key>)
  {
    && Accounted(s, max) && Describes(cs, s.index)
    && i <= |cs| && now == Taken(s, cs, i)
    && freed == Freed(cs[..i]) && (i > 0 ==> Freed(cs[..i - 1]) < needed)
    && paths == Names(cs[..i])
  }

  lemma EvictingStarts(s: Locked, max: nat, keys: seq<Key>, needed: nat)
    requires Accounted(s, max) && Enumerates(keys, s.index)
    ensures Evicting(s, max, AccessOrder(s.index, keys), needed, 0, s, 0, [])
  {
    AccessOrderDescribes(s.index, keys);
    assert s.index - KeysOf(AccessOrder(s.index, keys)[..0]) == s.index;
  }

  lemma EvictingStep(s: Locked, max: nat, cs: seq<Candidate>, needed: nat, i: nat, now: Locked, freed: nat,
                     paths: seq<Key>)
    requires Evicting(s, max, cs, needed, i, now, freed, paths) && i < |cs| && freed < needed
    ensures now.size >= cs[i].2
    ensures Evicting(s, max, cs, needed, i + 1, Locked(now.index - {cs[i].0}, now.size - cs[i].2), freed + cs[i].2,
                     paths + [cs[i].0])
  {
    TakenStep(s, max, cs, i);
  }

  lemma EvictingDone(s: Locked, max: nat, keys: seq<Key>, needed: nat, i: nat, now: Locked, freed: nat, paths: seq<Key>)
    requires Enumerates(keys, s.index)
    requires Evicting(s, max, AccessOrder(s.index, keys), needed, i, now, freed, paths)
    requires i == |AccessOrder(s.index, keys)| || freed >= needed
    ensures now == Evict(s, keys, needed) && Accounted(now, max)
    ensures paths == Names(Victims(AccessOrder(s.index, keys), needed))
  {
    StoppedLoopTookVictims(AccessOrder(s.index, keys), needed, i);
    TakenIsEvict(s, keys, needed, i);
    EvictKeepsAccount(s, max, keys, needed);
  }

  // ---- Sets of keys ----

  lemma NamesAreKeys(cs: seq<Candidate>)
    ensures Elements(Names(cs)) == KeysOf(cs)
  {
    forall i | 0 <= i < |cs| ensures cs[i].0 in Elements(Names(cs)) { assert Names(cs)[i] == cs[i].0; }
  }

  lemma PurgeNothing(s: Locked)
    ensures Purge(s, {}) == s && Matching(s.index, {}) == 0
  {
    assert s.index - {} == s.index && Chosen(s.index, {}) == map[];
  }

  /** Purging one more key is purging the earlier ones, then that key. */
  lemma PurgeOneMore(s: Locked, keys: seq<Key>, i: nat)
    requires i < |keys| && Distinct(keys) && keys[i] in s.index
    ensures var p, done := Purge(s, Elements(keys[..i])), Elements(keys[..i]);
            && keys[i] in p.index && p.index[keys[i]] == s.index[keys[i]]
            && Purge(s, Elements(keys[..i + 1])) == Remove(p, keys[i])
            && Matching(s.index, Elements(keys[..i + 1])) == Matching(s.index, done) + s.index[keys[i]].sizeBytes
  {
    var key, done := keys[i], Elements(keys[..i]);
    assert Elements(keys[..i + 1]) == done + {key};
    assert key !in done;
    SumUpdate(Chosen(s.index, done), key, s.index[key].sizeBytes);
    assert Chosen(s.index, done + {key}) == Chosen(s.index, done)[key := s.index[key].sizeBytes];
    assert s.index - (done + {key}) == s.index - done - {key};
  }

  // ---- The object ----

  class CacheLayer {
    var index: Index
    var currentSize: nat
    var files: map<string, Bytes>
    const maxSizeBytes: nat
    ghost var history: seq<Change>   // what every operation so far did to the plain map

    ghost function Core(): Locked reads this {
      Locked(index, currentSize)
    }

    ghost predicate Consistent() reads this {
      Accounted(Core(), maxSizeBytes)
    }

    ghost function Contents(): map<Key, Stored>
      reads this
      requires AllOnDisk(index, files)
    {
      ContentsOf(index, files)
    }

    /** Every indexed value is on disk, and no two keys share a file. */
    ghost predicate Intact() reads this {
      Consistent() && AllOnDisk(index, files) && SeparateFiles(index.Keys)
    }

    /** And every key reads back what the history says, and expires when it says. */
    ghost predicate Valid() reads this {
      Intact() && Contents() == ApplyAll(map[], history) && Dated(index, history)
    }

    constructor (maxSizeBytes: nat)
      ensures Valid() && Contents() == map[] && history == [] && this.maxSizeBytes == maxSizeBytes
    {
      index, currentSize, files, history := map[], 0, map[], [];
      this.maxSizeBytes := maxSizeBytes;
      new;
      assert Sizes(index) == map[];
    }

    // Locked sections. They do not touch the disk, and need only the accounting.

    /** First section of a lookup. None: no such key; Some(None): it had expired and is now gone. */
    method LookupSection(key: Key, allowStale: bool, now: int) returns (found: Option<Option<Entry>>)
      requires Consistent()
      modifies this`index, this`currentSize
      ensures Consistent() && Core() == Lookup(old(Core()), key, allowStale, now)
      ensures found.None? <==> key !in old(index)
      ensures key in old(index) ==>
                var e := old(index)[key];
                if e.expiresAt.None? || now <= e.expiresAt.value then
                  && found == Some(Some(e.(hitCount := e.hitCount + 1, accessedAt := now)))
                  && index == old(index)[key := e.(hitCount := e.hitCount + 1, accessedAt := now)]
                else if allowStale then found == Some(Some(e)) && index == old(index)
                else found == Some(None) && index == old(index) - {key}
    {
      LookupKeepsAccount(Core(), maxSizeBytes, key, allowStale, now);
      if key !in index { return None; }
      var entry := index[key];
      if Expired(entry, now) && !allowStale {
        TotalRemove(index, key);
        index := index - {key};
        currentSize := currentSize - entry.sizeBytes;
        return Some(None);
      }
      if !Expired(entry, now) {
        entry := entry.(hitCount := entry.hitCount + 1, accessedAt := now);
        index := index[key := entry];
      }
      return Some(Some(entry));
    }

    /** Second section of a lookup that found no file: forget the entry. */
    method ForgetSection(key: Key)
      requires Consistent()
      modifies this`index, this`currentSize
      ensures Consistent() && Core() == Remove(old(Core()), key) && index == old(index) - {key}
    {
      RemoveKeepsAccount(Core(), maxSizeBytes, key);
      if key in index {
        TotalRemove(index, key);
        currentSize := currentSize - index[key].sizeBytes;
        index := index - {key};
      }
    }

    /** Last section of a put: check the room again, then replace the entry. */
    method RegisterSection(key: Key, entry: Entry) returns (ok: bool)
      requires Consistent()
      modifies this`index, this`currentSize
      ensures Consistent() && Core() == Register(old(Core()), maxSizeBytes, key, entry)
      ensures ok <==> Total(old(index) - {key}) + entry.sizeBytes <= maxSizeBytes
      ensures index == if ok then old(index)[key := entry] else old(index)
    {
      RoomWithout(Core(), maxSizeBytes, key, entry);
      RegisterKeepsAccount(Core(), maxSizeBytes, key, entry);
      var oldSize := if key in index then index[key].sizeBytes else 0;
      var netIncrease := if entry.sizeBytes > oldSize then entry.sizeBytes - oldSize else 0;
      ok := currentSize + netIncrease <= maxSizeBytes;
      if ok {
        if key in index {
          TotalRemove(index, key);
          currentSize := currentSize - index[key].sizeBytes;
          index := index - {key};
        }
        index := index[key := entry];
        currentSize := currentSize + entry.sizeBytes;
      }
    }

    /** The locked half of an eviction: take entries in access order until enough is freed. */
    method EvictSection(needed: nat, keys: seq<Key>) returns (paths: seq<Key>)
      requires Consistent() && Enumerates(keys, index)
      modifies this`index, this`currentSize
      ensures Consistent() && Core() == Evict(old(Core()), keys, needed)
      ensures paths == Names(Victims(AccessOrder(old(index), keys), needed))
    {
      ghost var was := Core();
      var entries := AccessOrder(index, keys);
      var freed, i := 0, 0;
      paths := [];
      EvictingStarts(was, maxSizeBytes, keys, needed);
      while i < |entries| && freed < needed
        invariant i <= |entries|
        invariant Evicting(was, maxSizeBytes, entries, needed, i, Core(), freed, paths)
      {
        EvictingStep(was, maxSizeBytes, entries, needed, i, Core(), freed, paths);
        var (key, _, size) := entries[i];
        index := index - {key};
        currentSize := currentSize - size;
        paths := paths + [key];
        freed := freed + size;
        i := i + 1;
      }
      EvictingDone(was, maxSizeBytes, keys, needed, i, Core(), freed, paths);
    }

    /** The locked half of a purge: take out the given keys, counting entries and bytes. */
    method PurgeSection(keys: seq<Key>) returns (count: nat, freed: nat)
      requires Consistent() && Distinct(keys) && forall k :: k in keys ==> k in index
      modifies this`index, this`currentSize
      ensures Consistent() && Core() == Purge(old(Core()), Elements(keys))
      ensures count == |keys| && freed == Matching(old(index), Elements(keys))
    {
      ghost var was := Core();
      count, freed := 0, 0;
      PurgeNothing(was);
      for i := 0 to |keys|
        invariant Consistent() && count == i
        invariant Core() == Purge(was, Elements(keys[..i])) && freed == Matching(was.index, Elements(keys[..i]))
      {
        var key := keys[i];
        PurgeOneMore(was, keys, i);
        RemoveKeepsAccount(Core(), maxSizeBytes, key);
        TotalRemove(index, key);
        freed := freed + index[key].sizeBytes;
        count := count + 1;
        currentSize := currentSize - index[key].sizeBytes;
        index := index - {key};
      }
      assert keys[..|keys|] == keys;
    }

    /** The locked half of a full purge. */
    method ClearSection(keys: seq<Key>) returns (count: nat, freed: nat)
      requires Consistent() && Enumerates(keys, index)
      modifies this`index, this`currentSize
      ensures Consistent() && index == map[] && currentSize == 0
      ensures count == |old(index)| && freed == old(currentSize)
    {
      count, freed := |index|, Freed(Candidates(index, keys));
      AllFreed(index, keys);
      index, currentSize := map[], 0;
      assert Sizes(index) == map[];
    }

    // Work outside the lock.

    /** Delete the three files of each key. */
    method RemoveFiles(keys: seq<Key>)
      modifies this`files
      ensures files == WithoutFiles(old(files), Elements(keys))
    {
      assert files == WithoutFiles(files, Elements(keys[..0]));
      for i := 0 to |keys|
        invariant files == WithoutFiles(old(files), Elements(keys[..i]))
      {
        var key := keys[i];
        assert Elements(keys[..i + 1]) == Elements(keys[..i]) + {key};
        files := files - {key};
        files := files - {BrPath(key)};
        files := files - {HeadersPath(key)};
      }
      assert keys[..|keys|] == keys;
    }

    /** Write body and side files, register, and take the files back if there is no room any more. */
    method Store(key: Key, entry: Entry, bytes: Bytes, bodyBr: Option<Bytes>, headersJson: Bytes) returns (ok: bool)
      requires Consistent()
      modifies this`index, this`currentSize, this`files
      ensures Consistent()
      ensures Core() == Register(old(Core()), maxSizeBytes, key, entry)
      ensures ok <==> Total(old(index) - {key}) + entry.sizeBytes <= maxSizeBytes
      ensures index == if ok then old(index)[key := entry] else old(index)
      ensures var written := Written(old(files), key, bytes, bodyBr, entry.cachedHeaders, headersJson);
              files == if ok then written else written - {key, HeadersPath(key)}
    {
      files := files[key := bytes];
      if bodyBr.Some? && bodyBr.value != [] {
        files := files[BrPath(key) := bodyBr.value];
      }
      if entry.cachedHeaders != [] && |headersJson| <= MAX_CACHED_HEADERS_BYTES {
        files := files[HeadersPath(key) := headersJson];
      }
      ok := RegisterSection(key, entry);
      if !ok {
        files := files - {key};
        files := files - {HeadersPath(key)};
      }
    }

    /** Read the files of an entry found in the index; if the body is missing, forget the entry. */
    method ReadFiles(key: Key, entry: Entry) returns (stored: Option<Stored>)
      requires Consistent()
      modifies this`index, this`currentSize
      ensures Consistent()
      ensures key in files ==>
                && Core() == old(Core())
                && stored == Some(Stored(files[key], entry.contentType,
                                         if entry.hasBr && BrPath(key) in files then Some(files[BrPath(key)]) else None,
                                         entry.cachedHeaders))
      ensures key !in files ==> Core() == Remove(old(Core()), key) && stored == None
    {
      if key in files {
        var bodyBr := None;
        if entry.hasBr && BrPath(key) in files {
          bodyBr := Some(files[BrPath(key)]);
        }
        return Some(Stored(files[key], entry.contentType, bodyBr, entry.cachedHeaders));
      }
      ForgetSection(key);
      return None;
    }

    // The operations.

    method EvictLru(needed: nat, keys: seq<Key>)
      requires Consistent() && Enumerates(keys, index)
      modifies this`index, this`currentSize, this`files
      ensures Consistent() && index == old(index) - VictimKeys(old(index), keys, needed)
      ensures files == WithoutFiles(old(files), VictimKeys(old(index), keys, needed))
      ensures currentSize <= old(currentSize) && (old(currentSize) - currentSize >= needed || currentSize == 0)
    {
      EvictionFrees(Core(), maxSizeBytes, keys, needed);
      NamesAreKeys(Victims(AccessOrder(index, keys), needed));
      var paths := EvictSection(needed, keys);
      RemoveFiles(paths);
    }

    /** Evict until `size` more bytes fit. */
    method MakeRoom(size: nat, keys: seq<Key>, ghost evicted: set<Key>)
      requires Consistent() && Enumerates(keys, index) && size <= maxSizeBytes
      requires evicted == VictimKeys(index, keys, currentSize + size - maxSizeBytes)
      modifies this`index, this`currentSize, this`files
      ensures Consistent() && currentSize + size <= maxSizeBytes
      ensures index == old(index) - evicted && files == WithoutFiles(old(files), evicted)
    {
      if currentSize + size > maxSizeBytes {
        EvictLru(currentSize + size - maxSizeBytes, keys);
      } else {
        RoomAlready(index, files, keys, currentSize + size - maxSizeBytes);
      }
    }

    /** Storing what fits never has to be taken back. */
    method StoreFitting(key: Key, entry: Entry, bytes: Bytes, bodyBr: Option<Bytes>, headersJson: Bytes)
      requires Consistent() && currentSize + entry.sizeBytes <= maxSizeBytes
      modifies this`index, this`currentSize, this`files
      ensures Consistent() && index == old(index)[key := entry]
      ensures files == Written(old(files), key, bytes, bodyBr, entry.cachedHeaders, headersJson)
    {
      FitsBeside(Core(), maxSizeBytes, key, entry);
      var ok := Store(key, entry, bytes, bodyBr, headersJson);
    }

    /** Make room, then store. */
    method PutEntry(key: Key, entry: Entry, bytes: Bytes, bodyBr: Option<Bytes>, headersJson: Bytes, keys: seq<Key>,
                    ghost evicted: set<Key>)
      requires Consistent() && Enumerates(keys, index) && entry.sizeBytes <= maxSizeBytes
      requires evicted == VictimKeys(index, keys, currentSize + entry.sizeBytes - maxSizeBytes)
      modifies this`index, this`currentSize, this`files
      ensures Consistent() && index == (old(index) - evicted)[key := entry]
      ensures files == Written(WithoutFiles(old(files), evicted), key, bytes, bodyBr, entry.cachedHeaders, headersJson)
    {
      MakeRoom(entry.sizeBytes, keys, evicted);
      StoreFitting(key, entry, bytes, bodyBr, headersJson);
    }

    /** Store a response, evicting the least recently used entries first if it does not fit. An entry larger than the
        whole cache is ignored. For any key the index and the disk afterwards are stated exactly; while keys have
        separate files, every key goes on reading back what the history says. */
    method Put(key: Key, url: string, domain: string, contentType: Option<string>, bytes: Bytes, ttl: Option<nat>,
               bodyBr: Option<Bytes>, cachedHeaders: Headers, headersJson: Bytes, now: int, keys: seq<Key>)
      returns (ghost evicted: set<Key>)
      requires Consistent() && Enumerates(keys, index)
      modifies this
      ensures Consistent() && (old(Valid()) && SeparateFiles(index.Keys) ==> Valid())
      ensures |bytes| > maxSizeBytes ==> index == old(index) && currentSize == old(currentSize)
      ensures |bytes| > maxSizeBytes ==> files == old(files) && history == old(history)
      ensures evicted == VictimKeys(old(index), keys, old(currentSize) + |bytes| - maxSizeBytes)
      ensures |bytes| <= maxSizeBytes ==>
                var deadline := if ttl.Some? then Some(now + ttl.value) else None;
                var hasBr := bodyBr.Some? && |bodyBr.value| > 0;
                var entry := Entry(url, domain, contentType, |bytes|, 0, now, now, deadline, hasBr, cachedHeaders);
                && index == (old(index) - evicted)[key := entry]
                && files == Written(WithoutFiles(old(files), evicted), key, bytes, bodyBr, cachedHeaders, headersJson)
                && history == old(history) + [Accepted(key, Stored(bytes, contentType, if hasBr then bodyBr else None,
                                                                   cachedHeaders), deadline, evicted)]
    {
      evicted := VictimKeys(index, keys, currentSize + |bytes| - maxSizeBytes);
      var size := |bytes|;
      if size <= maxSizeBytes {
        var hasBr := bodyBr.Some? && bodyBr.value != [];
        var entry := NewEntry(url, domain, contentType, size, ttl, hasBr, cachedHeaders, now);
        PutEntry(key, entry, bytes, bodyBr, headersJson, keys, evicted);
        VictimsAreKeys(old(index), keys, old(currentSize) + size - maxSizeBytes);
        PutRefines(old(index), old(files), history, key, entry, bytes, bodyBr, headersJson, evicted);
        var stored := Stored(bytes, contentType, Variant(bodyBr), cachedHeaders);
        history := history + [Accepted(key, stored, entry.expiresAt, evicted)];
      }
    }

    method Find(key: Key, allowStale: bool, now: int) returns (hit: Option<Hit>)
      requires Intact()
      modifies this`index, this`currentSize, this`files
      ensures hit == if key !in old(index) || (Expired(old(index)[key], now) && !allowStale) then None
                     else Some(HitOf(old(Contents())[key], old(index)[key], now))
      ensures Intact() && (hit.None? ==> index == old(index) - {key})
      ensures hit.Some? ==> index == if Expired(old(index)[key], now) then old(index)
                                     else old(index)[key := old(index)[key].(hitCount := old(index)[key].hitCount + 1,
                                                                             accessedAt := now)]
      ensures Contents() == if hit.Some? then old(Contents()) else old(Contents()) - {key}
      ensures files == if hit.None? && key in old(index) then WithoutFiles(old(files), {key}) else old(files)
    {
      ghost var was := Contents();
      var found := LookupSection(key, allowStale, now);
      LookupKeepsDisk(old(Core()), files, key, allowStale, now);
      if found.None? {
        assert was - {key} == was;
        return None;
      }
      if found.value.None? {
        RemoveFiles([key]);
        assert Elements([key]) == {key};
        return None;
      }
      var entry := found.value.value;
      assert OnDisk(key, index[key], files) && StoredAt(key, index[key], files) == was[key];
      var stored := ReadFiles(key, entry);
      hit := if stored.Some? then Some(HitOf(stored.value, entry, now)) else None;
    }

    /** A lookup. What is kept is found unless its deadline, set by its last accepted put, has passed; then it is
        deleted, or returned marked as stale and left alone if `allowStale`. A fresh entry is counted and touched. */
    method GetWithStale(key: Key, allowStale: bool, now: int) returns (hit: Option<Hit>)
      requires Valid()
      modifies this
      ensures Valid()
      ensures key in old(index) <==> Kept(old(history), key)
      ensures var deadline := LastDeadline(old(history), key);
              && (hit.Some? <==> Kept(old(history), key) && (allowStale || deadline.None? || now <= deadline.value))
              && (hit.Some? ==> (hit.value.isStale <==> deadline.Some? && now > deadline.value))
              && (hit.Some? ==>
                    hit.value.expiresAtSecs == if deadline.None? then 0 else deadline.value / 1_000_000_000)
      ensures hit.Some? ==> LastAccepted(old(history), key) == Some(hit.value.stored)
      ensures files == if hit.None? && key in old(index) then WithoutFiles(old(files), {key}) else old(files)
      ensures hit.Some? && !hit.value.isStale ==>
                && key in old(index)
                && index == old(index)[key := old(index)[key].(hitCount := old(index)[key].hitCount + 1,
                                                               accessedAt := now)]
      ensures hit.Some? && hit.value.isStale ==> index == old(index)
      ensures hit.None? ==> index == old(index) - {key}
      ensures history == if hit.Some? then old(history) else old(history) + [Dropped({key})]
    {
      IndexFollowsHistory(index, files, history, key);
      ApplyAllAppend(map[], history, Dropped({key}));
      hit := Find(key, allowStale, now);
      StillDated(old(index), index, history, {key});
      if hit.None? { history := history + [Dropped({key})]; }
    }

    /** Note what an operation dropped. */
    ghost method Note(keys: set<Key>)
      requires Intact() && Contents() == ApplyAll(map[], history) - keys && Dated(index, history)
      modifies this`history
      ensures Valid() && history == old(history) + [Dropped(keys)]
    {
      DropNoted(index, files, history, keys);
      history := history + [Dropped(keys)];
    }

    method PurgeByKey(key: Key) returns (count: nat, freed: nat)
      requires Valid()
      modifies this
      ensures Valid() && index == old(index) - {key} && history == old(history) + [Dropped({key})]
      ensures files == if key in old(index) then WithoutFiles(old(files), {key}) else old(files)
      ensures (count, freed) == if key in old(index) then (1, old(index)[key].sizeBytes) else (0, 0)
    {
      count, freed := 0, 0;
      assert key !in index ==> Contents() - {key} == Contents();
      if key in index {
        count, freed := 1, index[key].sizeBytes;
        ForgetSection(key);
        RemoveFiles([key]);
        assert Elements([key]) == {key};
        RemovalKeepsTheRest(old(index), old(files), {key});
      }
      Note({key});
    }

    /** Drop exactly the given keys, and say how many entries and bytes that was. */
    method PurgeKeys(keys: seq<Key>) returns (count: nat, freed: nat)
      requires Intact() && Distinct(keys) && forall k :: k in keys ==> k in index
      modifies this`index, this`currentSize, this`files
      ensures Intact() && Core() == Purge(old(Core()), Elements(keys))
      ensures Contents() == old(Contents()) - Elements(keys)
      ensures index == old(index) - Elements(keys) && files == WithoutFiles(old(files), Elements(keys))
      ensures count == |keys| && freed == old(currentSize) - currentSize
    {
      RemovalKeepsTheRest(index, files, Elements(keys));
      count, freed := PurgeSection(keys);
      RemoveFiles(keys);
    }

    method PurgeByUrl(url: string, keys: seq<Key>) returns (count: nat, freed: nat)
      requires Valid() && Enumerates(keys, index)
      modifies this
      ensures Valid() && freed == old(currentSize) - currentSize
      ensures var gone := set k | k in old(index) && old(index)[k].url == url;
              && index == old(index) - gone && files == WithoutFiles(old(files), gone)
              && count == |gone| && history == old(history) + [Dropped(gone)]
    {
      var was := index;
      var matching := Matches(keys, k => k in was && was[k].url == url);
      MatchesAre(matching, set k | k in was && was[k].url == url);
      count, freed := PurgeKeys(matching);
      Note(Elements(matching));
    }

    method PurgeDomain(domain: string, keys: seq<Key>) returns (count: nat, freed: nat)
      requires Valid() && Enumerates(keys, index)
      modifies this
      ensures Valid() && freed == old(currentSize) - currentSize
      ensures var gone := set k | k in old(index) && old(index)[k].domain == domain;
              && index == old(index) - gone && files == WithoutFiles(old(files), gone)
              && count == |gone| && history == old(history) + [Dropped(gone)]
    {
      var was := index;
      var matching := Matches(keys, k => k in was && was[k].domain == domain);
      MatchesAre(matching, set k | k in was && was[k].domain == domain);
      count, freed := PurgeKeys(matching);
      Note(Elements(matching));
    }

    method PurgeAll(keys: seq<Key>) returns (count: nat, freed: nat)
      requires Valid() && Enumerates(keys, index)
      modifies this
      ensures Valid() && index == map[] && currentSize == 0 && files == WithoutFiles(old(files), old(index).Keys)
      ensures history == old(history) + [Dropped(old(index).Keys)]
      ensures count == |old(index)| && freed == old(currentSize)
    {
      ghost var was, gone := Contents(), index.Keys;
      assert Elements(keys) == gone;
      count, freed := ClearSection(keys);
      RemoveFiles(keys);
      EmptyIsIntact(files);
      assert was - gone == map[];
      Note(gone);
    }

    /** Evict down to `target` bytes, and say how much that freed. */
    method EvictDownTo(target: nat, keys: seq<Key>, ghost evicted: set<Key>) returns (freed: nat)
      requires Consistent() && Enumerates(keys, index)
      requires evicted == VictimKeys(index, keys, currentSize - target)
      modifies this`index, this`currentSize, this`files
      ensures Consistent() && currentSize <= target && freed == old(currentSize) - currentSize
      ensures index == old(index) - evicted && files == WithoutFiles(old(files), evicted)
    {
      var current := currentSize;
      if current <= target {
        RoomAlready(index, files, keys, current - target);
        freed := 0;
      } else {
        EvictLru(current - target, keys);
        freed := SaturatingSub(current, currentSize);
      }
    }

    /** The same, noted in the history. */
    method Evacuate(target: nat, keys: seq<Key>, ghost evicted: set<Key>) returns (freed: nat)
      requires Valid() && Enumerates(keys, index) && evicted <= index.Keys
      requires evicted == VictimKeys(index, keys, currentSize - target)
      modifies this
      ensures Valid() && currentSize <= target && freed == old(currentSize) - currentSize
      ensures index == old(index) - evicted && files == WithoutFiles(old(files), evicted)
      ensures history == old(history) + [Dropped(evicted)]
    {
      freed := EvictDownTo(target, keys, evicted);
      RemovalKeepsTheRest(old(index), old(files), evicted);
      Note(evicted);
    }

    /** Evict down to `target` bytes if usage is too high. */
    method EvictIf(tooHigh: bool, target: nat, keys: seq<Key>) returns (freed: nat, ghost evicted: set<Key>)
      requires Valid() && Enumerates(keys, index)
      modifies this
      ensures Valid() && freed == old(currentSize) - currentSize
      ensures tooHigh ==> currentSize <= target && evicted == VictimKeys(old(index), keys, old(currentSize) - target)
      ensures !tooHigh ==> evicted == {} && freed == 0
      ensures index == old(index) - evicted && files == WithoutFiles(old(files), evicted)
      ensures history == old(history) + [Dropped(evicted)]
    {
      if tooHigh {
        evicted := VictimKeys(index, keys, currentSize - target);
        VictimsAreKeys(index, keys, currentSize - target);
        freed := Evacuate(target, keys, evicted);
      } else {
        freed, evicted := 0, {};
        assert Contents() - {} == Contents() && index - {} == index;
        Note({});
      }
    }

    /** Evict down to `targetRatio` of capacity once usage has reached `hardRatio`. */
    method EvictToRatio(hardRatio: real, targetRatio: real, keys: seq<Key>)
      returns (freed: nat, ghost evicted: set<Key>)
      requires Valid() && Enumerates(keys, index)
      modifies this
      ensures Valid() && freed == old(currentSize) - currentSize
      ensures Reached(old(currentSize), maxSizeBytes, hardRatio) ==>
                && currentSize <= TargetBytes(maxSizeBytes, targetRatio)
                && evicted == VictimKeys(old(index), keys, old(currentSize) - TargetBytes(maxSizeBytes, targetRatio))
      ensures !Reached(old(currentSize), maxSizeBytes, hardRatio) ==> evicted == {} && freed == 0
      ensures index == old(index) - evicted && files == WithoutFiles(old(files), evicted)
      ensures history == old(history) + [Dropped(evicted)]
    {
      var tooHigh := Reached(currentSize, maxSizeBytes, hardRatio);
      freed, evicted := EvictIf(tooHigh, TargetBytes(maxSizeBytes, targetRatio), keys);
    }

    method GetDomainStats(keys: seq<Key>) returns (stats: map<string, DomainStats>)
      requires Consistent() && Enumerates(keys, index)
      ensures stats == StatsOf(index) && Sum(SizesByDomain(stats)) == currentSize
    {
      stats := map[];
      SeenAll(index, keys);
      for i := 0 to |keys|
        invariant stats == StatsOf(Seen(index, keys, i))
      {
        SeenStep(index, keys, i);
        var entry := index[keys[i]];
        var stat := if entry.domain in stats then stats[entry.domain] else DomainStats(0, 0);
        stat := DomainStats(stat.hitCount + entry.hitCount, stat.sizeBytes + entry.sizeBytes);
        stats := stats[entry.domain := stat];
      }
      StatsSumToTotal(index);
    }
  }
}
