/**
 The disk cache's index and byte counter, as the functions its locked sections compute. The class CacheLayer carries
 them out and CacheInterleaving lets any number of operations interleave them.
 */
module CacheIndex {
  import opened Wrappers
  import opened MapSum
  import opened Sorting

  type Key = string

  datatype Entry = Entry(url: string, domain: string, contentType: Option<string>, sizeBytes: nat, hitCount: nat,
                         createdAt: int, accessedAt: int, expiresAt: Option<int>, hasBr: bool, cachedHeaders: Headers)

  type Index = map<Key, Entry>

  /** What the index lock protects: the index, and the counter that every section leaves settled. */
  datatype Locked = Locked(index: Index, size: int)

  predicate Expired(e: Entry, now: int) {
    e.expiresAt.Some? && now > e.expiresAt.value
  }

  ghost function Sizes(index: Index): map<Key, nat> {
    map k | k in index :: index[k].sizeBytes
  }

  /** The sum of size_bytes over the index. */
  ghost function Total(index: Index): nat {
    Sum(Sizes(index))
  }

  /** The accounting invariant: the counter is the indexed total, and within capacity. */
  ghost predicate Accounted(s: Locked, max: nat) {
    s.size == Total(s.index) <= max
  }

  lemma TotalRemove(index: Index, k: Key)
    requires k in index
    ensures Total(index) == index[k].sizeBytes + Total(index - {k})
  {
    SumRemove(Sizes(index), k);
    assert Sizes(index - {k}) == Sizes(index) - {k};
  }

  lemma TotalUpdate(index: Index, k: Key, e: Entry)
    ensures Total(index[k := e]) + (if k in index then index[k].sizeBytes else 0) == Total(index) + e.sizeBytes
  {
    SumUpdate(Sizes(index), k, e.sizeBytes);
    assert Sizes(index[k := e]) == Sizes(index)[k := e.sizeBytes];
  }

  // ---- Single-entry sections ----

  /** Take one key out, if it is there. */
  function Remove(s: Locked, k: Key): Locked {
    if k in s.index then Locked(s.index - {k}, s.size - s.index[k].sizeBytes) else s
  }

  /** The locked lookup: an expired entry goes, unless stale ones are allowed; a fresh one is touched. */
  function Lookup(s: Locked, k: Key, allowStale: bool, now: int): Locked {
    if k !in s.index then s
    else if Expired(s.index[k], now) then (if allowStale then s else Remove(s, k))
    else
      var e := s.index[k];
      s.(index := s.index[k := e.(hitCount := e.hitCount + 1, accessedAt := now)])
  }

  /** The net growth of the index if `e` is stored under `k`. */
  function NetIncrease(s: Locked, k: Key, e: Entry): nat {
    var oldSize := if k in s.index then s.index[k].sizeBytes else 0;
    if e.sizeBytes > oldSize then e.sizeBytes - oldSize else 0
  }

  predicate Fits(s: Locked, max: nat, k: Key, e: Entry) {
    s.size + NetIncrease(s, k, e) <= max
  }

  /** The locked registration after the files are written: re-check, then replace. */
  function Register(s: Locked, max: nat, k: Key, e: Entry): Locked {
    if !Fits(s, max, k, e) then s
    else
      var r := Remove(s, k);
      Locked(r.index[k := e], r.size + e.sizeBytes)
  }

  lemma RemoveKeepsAccount(s: Locked, max: nat, k: Key)
    requires Accounted(s, max)
    ensures Accounted(Remove(s, k), max)
  {
    if k in s.index { TotalRemove(s.index, k); }
  }

  lemma LookupKeepsAccount(s: Locked, max: nat, k: Key, allowStale: bool, now: int)
    requires Accounted(s, max)
    ensures Accounted(Lookup(s, k, allowStale, now), max)
  {
    RemoveKeepsAccount(s, max, k);
    if k in s.index {
      var e := s.index[k];
      TotalUpdate(s.index, k, e.(hitCount := e.hitCount + 1, accessedAt := now));
    }
  }

  lemma RegisterKeepsAccount(s: Locked, max: nat, k: Key, e: Entry)
    requires Accounted(s, max)
    ensures Accounted(Register(s, max, k, e), max)
  {
    RemoveKeepsAccount(s, max, k);
    TotalUpdate(Remove(s, k).index, k, e);
  }

  // ---- Eviction ----

  /** A key with the access time and size the eviction pass copies out of the index. */
  type Candidate = (Key, int, nat)

  function Older(a: Candidate, b: Candidate): bool { a.1 <= b.1 }

  /** A hash map hands out its keys in some order, each once. */
  ghost predicate Enumerates(keys: seq<Key>, index: Index) {
    && (forall i, j :: 0 <= i < j < |keys| ==> keys[i] != keys[j])
    && (forall k :: k in keys <==> k in index)
  }

  function Candidates(index: Index, keys: seq<Key>): (cs: seq<Candidate>)
    requires forall k :: k in keys ==> k in index
    ensures |cs| == |keys|
    ensures forall i :: 0 <= i < |keys| ==> cs[i] == (keys[i], index[keys[i]].accessedAt, index[keys[i]].sizeBytes)
  {
    seq(|keys|, i requires 0 <= i < |keys| => (keys[i], index[keys[i]].accessedAt, index[keys[i]].sizeBytes))
  }

  /** The candidates, least recently accessed first. Ties fall in hash order. */
  function AccessOrder(index: Index, keys: seq<Key>): seq<Candidate>
    requires forall k :: k in keys ==> k in index
  {
    Sort(Candidates(index, keys), Older)
  }

  function Freed(cs: seq<Candidate>): nat {
    if cs == [] then 0 else cs[0].2 + Freed(cs[1..])
  }

  /** The candidates the eviction loop takes: it stops once enough is freed. */
  function Victims(cs: seq<Candidate>, needed: int): seq<Candidate> {
    if cs == [] || needed <= 0 then [] else [cs[0]] + Victims(cs[1..], needed - cs[0].2)
  }

  ghost function KeysOf(cs: seq<Candidate>): set<Key> {
    set i | 0 <= i < |cs| :: cs[i].0
  }

  /** The keys an eviction removes. */
  ghost function VictimKeys(index: Index, keys: seq<Key>, needed: int): set<Key>
    requires forall k :: k in keys ==> k in index
  {
    KeysOf(Victims(AccessOrder(index, keys), needed))
  }

  ghost function Evict(s: Locked, keys: seq<Key>, needed: int): Locked
    requires forall k :: k in keys ==> k in s.index
  {
    Locked(s.index - VictimKeys(s.index, keys, needed), s.size - Freed(Victims(AccessOrder(s.index, keys), needed)))
  }

  /** The candidates tell the truth about the index, each key once. */
  ghost predicate Describes(cs: seq<Candidate>, index: Index) {
    && (forall i, j :: 0 <= i < j < |cs| ==> cs[i].0 != cs[j].0)
    && (forall i :: 0 <= i < |cs| ==>
          cs[i].0 in index && cs[i].1 == index[cs[i].0].accessedAt && cs[i].2 == index[cs[i].0].sizeBytes)
  }

  lemma {:induction false} VictimsArePrefix(cs: seq<Candidate>, needed: int)
    ensures var v := Victims(cs, needed);
            && v <= cs
            && (Freed(v) >= needed || v == cs)
            && (v != [] ==> Freed(v[..|v| - 1]) < needed)
  {
    if cs != [] && needed > 0 {
      VictimsArePrefix(cs[1..], needed - cs[0].2);
      var v, rest := Victims(cs, needed), Victims(cs[1..], needed - cs[0].2);
      assert v[1..] == rest && cs == [cs[0]] + cs[1..];
      if rest != [] {
        assert v[..|v| - 1][1..] == rest[..|rest| - 1];
      }
    }
  }

  lemma {:induction false} RemovingDescribed(cs: seq<Candidate>, index: Index)
    requires Describes(cs, index)
    ensures Total(index - KeysOf(cs)) + Freed(cs) == Total(index)
    decreases |cs|
  {
    if cs == [] {
      assert index - KeysOf(cs) == index;
    } else {
      var k := cs[0].0;
      TotalRemove(index, k);
      forall i | 0 <= i < |cs[1..]| ensures cs[1..][i].0 != k { assert cs[1..][i] == cs[i + 1]; }
      RemovingDescribed(cs[1..], index - {k});
      assert KeysOf(cs) == {k} + KeysOf(cs[1..]) by {
        assert forall i :: 0 < i < |cs| ==> cs[i] == cs[1..][i - 1];
      }
      assert index - KeysOf(cs) == index - {k} - KeysOf(cs[1..]);
    }
  }

  lemma DistinctUnderPermutation(a: seq<Candidate>, b: seq<Candidate>, index: Index)
    requires Describes(a, index) && multiset(a) == multiset(b)
    ensures Describes(b, index)
    ensures KeysOf(a) == KeysOf(b)
  {
    forall i | 0 <= i < |b| ensures b[i] in a { assert b[i] in multiset(b); }
    forall i | 0 <= i < |a| ensures a[i] in b { assert a[i] in multiset(a); }
    assert Distinct(a);
    PermutationKeepsDistinct(a, b);
    forall i, j | 0 <= i < j < |b| ensures b[i].0 != b[j].0 {
      assert b[i] in a && b[j] in a && b[i] != b[j];
    }
  }

  /** The access order lists every indexed key once, with its true size, least recently accessed first. */
  lemma AccessOrderDescribes(index: Index, keys: seq<Key>)
    requires Enumerates(keys, index)
    ensures var order := AccessOrder(index, keys);
            Describes(order, index) && KeysOf(order) == index.Keys && Sorted(order, Older)
  {
    var cs := Candidates(index, keys);
    SortPermutes(cs, Older);
    SortSorts(cs, Older);
    DistinctUnderPermutation(cs, AccessOrder(index, keys), index);
    forall k | k in index ensures k in KeysOf(cs) {
      var i :| 0 <= i < |keys| && keys[i] == k;
      assert cs[i].0 == k;
    }
  }

  lemma PrefixDescribes(v: seq<Candidate>, cs: seq<Candidate>, index: Index)
    requires v <= cs && Describes(cs, index)
    ensures Describes(v, index)
  {}

  lemma EvictKeepsAccount(s: Locked, max: nat, keys: seq<Key>, needed: int)
    requires Accounted(s, max) && Enumerates(keys, s.index)
    ensures Accounted(Evict(s, keys, needed), max)
  {
    var order := AccessOrder(s.index, keys);
    AccessOrderDescribes(s.index, keys);
    VictimsArePrefix(order, needed);
    PrefixDescribes(Victims(order, needed), order, s.index);
    RemovingDescribed(Victims(order, needed), s.index);
  }

  lemma EvictingAllEmpties(s: Locked, max: nat, keys: seq<Key>, needed: int)
    requires Accounted(s, max) && Enumerates(keys, s.index)
    requires Victims(AccessOrder(s.index, keys), needed) == AccessOrder(s.index, keys)
    ensures Evict(s, keys, needed) == Locked(map[], 0)
  {
    AccessOrderDescribes(s.index, keys);
    EvictKeepsAccount(s, max, keys, needed);
    assert Evict(s, keys, needed).index == map[];
    assert Sizes(map[]) == map[];
  }

  lemma SurvivorsAreNoOlder(order: seq<Candidate>, n: nat, index: Index)
    requires Describes(order, index) && KeysOf(order) == index.Keys && Sorted(order, Older)
    requires n <= |order|
    ensures KeysOf(order[..n]) <= index.Keys
    ensures forall gone, kept :: gone in KeysOf(order[..n]) && kept in index.Keys - KeysOf(order[..n]) ==>
              index[gone].accessedAt <= index[kept].accessedAt
  {
    var victims := order[..n];
    assert forall i :: 0 <= i < n ==> victims[i] == order[i];
    assert KeysOf(victims) <= KeysOf(order);
    forall gone, kept | gone in KeysOf(victims) && kept in index.Keys - KeysOf(victims)
      ensures index[gone].accessedAt <= index[kept].accessedAt
    {
      var i :| 0 <= i < n && victims[i].0 == gone;
      assert kept in KeysOf(order);
      var j :| 0 <= j < |order| && order[j].0 == kept;
      assert forall m :: 0 <= m < n ==> victims[m].0 in KeysOf(victims);
      assert Older(order[i], order[j]);
    }
  }

  /** Eviction is least recently used: no survivor is older than a victim. */
  lemma VictimsAreOldest(s: Locked, keys: seq<Key>, needed: int)
    requires Enumerates(keys, s.index)
    ensures var victims := VictimKeys(s.index, keys, needed);
            && victims <= s.index.Keys
            && (forall gone, kept :: gone in victims && kept in s.index.Keys - victims ==>
                  s.index[gone].accessedAt <= s.index[kept].accessedAt)
  {
    var order := AccessOrder(s.index, keys);
    var victims := Victims(order, needed);
    AccessOrderDescribes(s.index, keys);
    VictimsArePrefix(order, needed);
    SurvivorsAreNoOlder(order, |victims|, s.index);
    assert order[..|victims|] == victims;
  }

  /** Eviction takes no more than it must: the victims are a prefix of the access order, their sizes are what the
      counter loses, and without the last of them too little would have been freed. */
  lemma EvictionIsShortest(s: Locked, max: nat, keys: seq<Key>, needed: int)
    requires Accounted(s, max) && Enumerates(keys, s.index)
    ensures var order := AccessOrder(s.index, keys);
            var victims := Victims(order, needed);
            && victims <= order && KeysOf(victims) == VictimKeys(s.index, keys, needed)
            && Evict(s, keys, needed).size == s.size - Freed(victims)
            && (victims != [] ==> Freed(victims[..|victims| - 1]) < needed)
  {
    VictimsArePrefix(AccessOrder(s.index, keys), needed);
  }

  lemma FrontKeys(order: seq<Candidate>, index: Index)
    requires order != [] && Describes(order, index) && KeysOf(order) == index.Keys
    ensures KeysOf(order[..|order| - 1]) == index.Keys - {order[|order| - 1].0}
  {
    var n := |order| - 1;
    assert forall i :: 0 <= i < n ==> order[..n][i] == order[i] && order[i].0 in KeysOf(order[..n]);
  }

  lemma FrontLeavesLast(order: seq<Candidate>, index: Index)
    requires order != [] && Describes(order, index) && KeysOf(order) == index.Keys
    ensures Freed(order[..|order| - 1]) == Total(index - {order[|order| - 1].0})
  {
    var front, key := order[..|order| - 1], order[|order| - 1].0;
    FrontKeys(order, index);
    PrefixDescribes(front, order, index);
    RemovingDescribed(front, index - {key});
    assert index - {key} - KeysOf(front) == map[];
    assert Sizes(map[]) == map[];
  }

  lemma YoungestIsLast(order: seq<Candidate>, index: Index, key: Key)
    requires Describes(order, index) && KeysOf(order) == index.Keys && Sorted(order, Older) && key in index
    requires forall k :: k in index && k != key ==> index[k].accessedAt < index[key].accessedAt
    ensures order != [] && order[|order| - 1].0 == key
  {
    assert key in KeysOf(order);
    var i :| 0 <= i < |order| && order[i].0 == key;
    if i < |order| - 1 { assert Older(order[i], order[|order| - 1]); }
  }

  lemma LastTakesAll(order: seq<Candidate>, index: Index, n: nat)
    requires n <= |order| && order != [] && Describes(order, index)
    requires order[|order| - 1].0 in KeysOf(order[..n])
    ensures n == |order|
  {
    var last := order[|order| - 1].0;
    var i :| 0 <= i < n && order[..n][i].0 == last;
    assert order[i].0 == last;
  }

  lemma YoungestTakesAll(order: seq<Candidate>, index: Index, key: Key, n: nat)
    requires Describes(order, index) && KeysOf(order) == index.Keys && Sorted(order, Older)
    requires n <= |order| && key in index && key in KeysOf(order[..n])
    requires forall k :: k in index && k != key ==> index[k].accessedAt < index[key].accessedAt
    ensures n == |order| > 0 && Freed(order[..n - 1]) == Total(index - {key})
  {
    YoungestIsLast(order, index, key);
    LastTakesAll(order, index, n);
    FrontLeavesLast(order, index);
  }

  lemma YoungestGoesLast(index: Index, key: Key, keys: seq<Key>, needed: int)
    requires Enumerates(keys, index) && key in index && key in VictimKeys(index, keys, needed)
    requires forall k :: k in index && k != key ==> index[k].accessedAt < index[key].accessedAt
    ensures VictimKeys(index, keys, needed) == index.Keys && Total(index - {key}) < needed
  {
    var order := AccessOrder(index, keys);
    var victims := Victims(order, needed);
    AccessOrderDescribes(index, keys);
    VictimsArePrefix(order, needed);
    assert victims == order[..|victims|];
    YoungestTakesAll(order, index, key, |victims|);
    assert victims == order;
  }

  /** A fresh entry that is looked up later than all others were accessed moves to the young end: it is evicted only if
      all the others have to go and are not enough. */
  lemma HitIsEvictedLast(s: Locked, key: Key, allowStale: bool, now: int, keys: seq<Key>, needed: int)
    requires Enumerates(keys, s.index) && key in s.index
    requires s.index[key].expiresAt.Some? ==> now <= s.index[key].expiresAt.value
    requires forall k :: k in s.index && k != key ==> s.index[k].accessedAt < now
    ensures var touched := Lookup(s, key, allowStale, now).index;
            && touched.Keys == s.index.Keys
            && (key in VictimKeys(touched, keys, needed) ==>
                  VictimKeys(touched, keys, needed) == s.index.Keys && Total(s.index - {key}) < needed)
  {
    var touched := Lookup(s, key, allowStale, now).index;
    assert touched.Keys == s.index.Keys && touched - {key} == s.index - {key};
    assert Enumerates(keys, touched);
    if key in VictimKeys(touched, keys, needed) { YoungestGoesLast(touched, key, keys, needed); }
  }

  lemma NothingNeededNothingEvicted(index: Index, keys: seq<Key>, needed: int)
    requires needed <= 0 && forall k :: k in keys ==> k in index
    ensures VictimKeys(index, keys, needed) == {}
  {}

  /** Eviction frees what is needed, or leaves nothing. */
  lemma EvictionFrees(s: Locked, max: nat, keys: seq<Key>, needed: int)
    requires Accounted(s, max) && Enumerates(keys, s.index)
    ensures Accounted(Evict(s, keys, needed), max)
    ensures s.size - Evict(s, keys, needed).size >= needed || Evict(s, keys, needed) == Locked(map[], 0)
  {
    VictimsArePrefix(AccessOrder(s.index, keys), needed);
    EvictKeepsAccount(s, max, keys, needed);
    if Victims(AccessOrder(s.index, keys), needed) == AccessOrder(s.index, keys) {
      EvictingAllEmpties(s, max, keys, needed);
    }
  }

  // ---- Purging ----

  ghost function Chosen(index: Index, keys: set<Key>): map<Key, nat> {
    map k | k in index && k in keys :: index[k].sizeBytes
  }

  /** The bytes indexed under the given keys. */
  ghost function Matching(index: Index, keys: set<Key>): nat {
    Sum(Chosen(index, keys))
  }

  /** Take out every given key. */
  ghost function Purge(s: Locked, keys: set<Key>): Locked {
    Locked(s.index - keys, s.size - Matching(s.index, keys))
  }

  lemma PurgeKeepsAccount(s: Locked, max: nat, keys: set<Key>)
    requires Accounted(s, max)
    ensures Accounted(Purge(s, keys), max)
    ensures Purge(s, keys).size == s.size - Matching(s.index, keys)
  {
    SumSplit(Sizes(s.index), keys);
    assert Sizes(s.index - keys) == Sizes(s.index) - keys;
    assert Chosen(s.index, keys) == (map k | k in Sizes(s.index) && k in keys :: Sizes(s.index)[k]);
  }

  // ---- Statistics ----

  datatype DomainStats = DomainStats(hitCount: nat, sizeBytes: nat)

  ghost function Within(index: Index, domain: string): Index {
    map k | k in index && index[k].domain == domain :: index[k]
  }

  ghost function Hits(index: Index): map<Key, nat> {
    map k | k in index :: index[k].hitCount
  }

  ghost function Domains(index: Index): set<string> {
    set k | k in index :: index[k].domain
  }

  ghost function StatOf(index: Index, d: string): DomainStats {
    DomainStats(Sum(Hits(Within(index, d))), Total(Within(index, d)))
  }

  /** For each domain with an entry, the totals over exactly its entries. */
  ghost function StatsOf(index: Index): map<string, DomainStats> {
    map d | d in Domains(index) :: StatOf(index, d)
  }

  ghost function SizesByDomain(stats: map<string, DomainStats>): map<string, nat> {
    map d | d in stats :: stats[d].sizeBytes
  }

  function Plus(s: DomainStats, e: Entry): DomainStats {
    DomainStats(s.hitCount + e.hitCount, s.sizeBytes + e.sizeBytes)
  }

  /** The entry `or_insert` starts from. */
  function StatAt(stats: map<string, DomainStats>, d: string): DomainStats {
    if d in stats then stats[d] else DomainStats(0, 0)
  }

  lemma StatAddOwn(index: Index, k: Key, e: Entry)
    requires k !in index
    ensures StatOf(index[k := e], e.domain) == Plus(StatOf(index, e.domain), e)
  {
    var own := Within(index, e.domain);
    assert Within(index[k := e], e.domain) == own[k := e];
    TotalUpdate(own, k, e);
    SumUpdate(Hits(own), k, e.hitCount);
    assert Hits(own[k := e]) == Hits(own)[k := e.hitCount];
  }

  lemma StatAdd(index: Index, k: Key, e: Entry, d: string)
    requires k !in index
    ensures StatOf(index[k := e], d) == if d == e.domain then Plus(StatOf(index, d), e) else StatOf(index, d)
  {
    if d == e.domain {
      StatAddOwn(index, k, e);
    } else {
      assert Within(index[k := e], d) == Within(index, d);
    }
  }

  lemma StatOfAbsent(index: Index, d: string)
    ensures StatAt(StatsOf(index), d) == StatOf(index, d)
  {
    if d !in Domains(index) {
      assert Within(index, d) == map[];
      assert Sizes(map[]) == map[] && Hits(map[]) == map[];
    }
  }

  lemma DomainsAdd(index: Index, k: Key, e: Entry)
    requires k !in index
    ensures Domains(index[k := e]) == Domains(index) + {e.domain}
  {
    var more := index[k := e];
    assert more[k].domain == e.domain;
    forall j | j in index ensures index[j].domain in Domains(more) { assert more[j] == index[j]; }
  }

  /** One more entry counts towards its own domain and no other. */
  lemma StatsAdd(index: Index, k: Key, e: Entry)
    requires k !in index
    ensures StatsOf(index[k := e]) == StatsOf(index)[e.domain := Plus(StatAt(StatsOf(index), e.domain), e)]
  {
    DomainsAdd(index, k, e);
    StatOfAbsent(index, e.domain);
    var now := StatsOf(index)[e.domain := Plus(StatAt(StatsOf(index), e.domain), e)];
    assert StatsOf(index[k := e]).Keys == Domains(index[k := e]) && StatsOf(index).Keys == Domains(index);
    forall d | d in Domains(index[k := e]) ensures StatsOf(index[k := e])[d] == now[d] {
      StatAdd(index, k, e, d);
      assert d != e.domain ==> d in Domains(index);
    }
  }

  lemma SizesAfter(stats: map<string, DomainStats>, d: string, now: DomainStats)
    ensures Sum(SizesByDomain(stats[d := now])) + StatAt(stats, d).sizeBytes
         == Sum(SizesByDomain(stats)) + now.sizeBytes
  {
    SumUpdate(SizesByDomain(stats), d, now.sizeBytes);
    assert SizesByDomain(stats[d := now]) == SizesByDomain(stats)[d := now.sizeBytes];
  }

  /** The per-domain sizes add up to the indexed total, hence to the byte counter. */
  lemma {:induction false} StatsSumToTotal(index: Index)
    ensures Sum(SizesByDomain(StatsOf(index))) == Total(index)
    decreases |index|
  {
    if index == map[] {
      assert SizesByDomain(StatsOf(index)) == map[] && Sizes(index) == map[];
    } else {
      var k :| k in index;
      var e, rest := index[k], index - {k};
      assert index == rest[k := e];
      StatsSumToTotal(rest);
      StatsAdd(rest, k, e);
      TotalUpdate(rest, k, e);
      SizesAfter(StatsOf(rest), e.domain, Plus(StatAt(StatsOf(rest), e.domain), e));
    }
  }

  /** The part of the index among the first `i` keys. */
  ghost function Seen(index: Index, keys: seq<Key>, i: nat): Index
    requires i <= |keys|
  {
    map k | k in index && k in keys[..i] :: index[k]
  }

  lemma SeenStep(index: Index, keys: seq<Key>, i: nat)
    requires Enumerates(keys, index) && i < |keys|
    ensures var stats, e := StatsOf(Seen(index, keys, i)), index[keys[i]];
            StatsOf(Seen(index, keys, i + 1)) == stats[e.domain := Plus(StatAt(stats, e.domain), e)]
  {
    var k := keys[i];
    assert keys[..i + 1] == keys[..i] + [k] && k !in keys[..i];
    assert Seen(index, keys, i + 1) == Seen(index, keys, i)[k := index[k]];
    StatsAdd(Seen(index, keys, i), k, index[k]);
  }

  lemma SeenAll(index: Index, keys: seq<Key>)
    requires Enumerates(keys, index)
    ensures StatsOf(Seen(index, keys, 0)) == map[] && Seen(index, keys, |keys|) == index
  {
    assert Seen(index, keys, 0) == map[];
    assert keys[..|keys|] == keys;
  }
}
