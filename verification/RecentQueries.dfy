/**
 The DNS service's recent-query buffer: newest first, bounded, with the most frequent names. The order in which the
 counting hash map hands out its entries is a parameter. Counts stay below 2^32 because the buffer does.
 */
module RecentQueries {
  import opened Sorting

  datatype QueryResult = Matched | Nxdomain | Forwarded
  datatype QueryEntry = QueryEntry(tsUnixMs: int, clientIp: string, qname: string, qtype: string, result: QueryResult,
                                   latencyUs: nat)

  type Tally = (string, nat)

  // ---- The buffer ----

  /** One push: at capacity the oldest entry leaves first. */
  function Pushed(q: seq<QueryEntry>, cap: nat, e: QueryEntry): seq<QueryEntry> {
    [e] + (if |q| == cap && q != [] then q[..|q| - 1] else q)
  }

  function PushAll(q: seq<QueryEntry>, cap: nat, es: seq<QueryEntry>): seq<QueryEntry>
    decreases |es|
  {
    if es == [] then q else Pushed(PushAll(q, cap, es[..|es| - 1]), cap, es[|es| - 1])
  }

  function Reversed<T>(s: seq<T>): seq<T> {
    if s == [] then [] else [s[|s| - 1]] + Reversed(s[..|s| - 1])
  }

  /** The last `n` elements. */
  function Last<T>(s: seq<T>, n: nat): seq<T> {
    if |s| <= n then s else s[|s| - n..]
  }

  /** What a buffer of the given capacity retains of everything pushed; a capacity of zero retains it all. */
  function Retained(es: seq<QueryEntry>, cap: nat): seq<QueryEntry> {
    if cap == 0 then es else Last(es, cap)
  }

  lemma {:induction false} ReversedLength<T>(s: seq<T>)
    ensures |Reversed(s)| == |s|
  {
    if s != [] { ReversedLength(s[..|s| - 1]); }
  }

  lemma {:induction false} ReversedDropLast<T>(s: seq<T>)
    requires s != []
    ensures Reversed(s) != [] && Reversed(s)[..|Reversed(s)| - 1] == Reversed(s[1..])
  {
    ReversedLength(s);
    if |s| > 1 {
      var init := s[..|s| - 1];
      ReversedDropLast(init);
      assert s[1..][..|s| - 2] == init[1..];
      assert Reversed(s)[..|s| - 1] == [s[|s| - 1]] + Reversed(init)[..|init| - 1];
    }
  }

  lemma PushRetains(es: seq<QueryEntry>, cap: nat, e: QueryEntry)
    ensures Pushed(Reversed(Retained(es, cap)), cap, e) == Reversed(Retained(es + [e], cap))
  {
    var kept, now := Retained(es, cap), Retained(es + [e], cap);
    ReversedLength(kept);
    if cap == 0 || |es| < cap {
      assert now == kept + [e];
      assert now[..|now| - 1] == kept;
    } else {
      ReversedDropLast(kept);
      assert now == kept[1..] + [e];
      assert now[..|now| - 1] == kept[1..];
    }
  }

  lemma PushOneMore(cap: nat, es: seq<QueryEntry>, e: QueryEntry)
    ensures PushAll([], cap, es + [e]) == Pushed(PushAll([], cap, es), cap, e)
  {
    assert (es + [e])[..|es|] == es;
  }

  /** After any pushes the buffer is the newest-first list of the last `cap` entries; a capacity of zero keeps them
      all. */
  lemma {:induction false} BufferIsLastEntriesNewestFirst(cap: nat, es: seq<QueryEntry>)
    ensures PushAll([], cap, es) == Reversed(Retained(es, cap))
    ensures |PushAll([], cap, es)| == if cap == 0 || |es| <= cap then |es| else cap
    decreases |es|
  {
    if es != [] {
      var front, e := es[..|es| - 1], es[|es| - 1];
      assert es == front + [e];
      BufferIsLastEntriesNewestFirst(cap, front);
      PushRetains(front, cap, e);
      PushOneMore(cap, front, e);
    }
    ReversedLength(Retained(es, cap));
  }

  lemma {:induction false} ReversedAt<T>(s: seq<T>, i: nat)
    requires i < |s|
    ensures |Reversed(s)| == |s| && Reversed(s)[i] == s[|s| - 1 - i]
  {
    ReversedLength(s);
    if i > 0 { ReversedAt(s[..|s| - 1], i - 1); }
  }

  /** The buffer read by position: entry `i` is the one pushed `i` pushes before the last. */
  lemma NewestFirst(es: seq<QueryEntry>, cap: nat)
    ensures var buffer := Reversed(Retained(es, cap));
            && |buffer| == (if 0 < cap < |es| then cap else |es|)
            && forall i :: 0 <= i < |buffer| ==> buffer[i] == es[|es| - 1 - i]
  {
    var kept := Retained(es, cap);
    ReversedLength(kept);
    forall i | 0 <= i < |kept| ensures Reversed(kept)[i] == es[|es| - 1 - i] { ReversedAt(kept, i); }
  }

  /** The capacity bounds the buffer if and only if it is at least one. */
  lemma CapacityBoundsBuffer(cap: nat)
    ensures cap >= 1 <==> forall es :: |PushAll([], cap, es)| <= cap
  {
    var e := QueryEntry(0, "", "", "", Matched, 0);
    BufferIsLastEntriesNewestFirst(cap, [e]);
    if cap >= 1 {
      forall es ensures |PushAll([], cap, es)| <= cap {
        BufferIsLastEntriesNewestFirst(cap, es);
      }
    } else {
      assert |PushAll([], cap, [e])| == 1;
    }
  }

  // ---- Counting ----

  function Count(q: seq<QueryEntry>, name: string): nat {
    if q == [] then 0 else Count(q[..|q| - 1], name) + (if q[|q| - 1].qname == name then 1 else 0)
  }

  function Names(q: seq<QueryEntry>): set<string> {
    set i | 0 <= i < |q| :: q[i].qname
  }

  /** Each name that occurs, with how often. */
  function Counts(q: seq<QueryEntry>): map<string, nat> {
    map n | n in Names(q) :: Count(q, n)
  }

  lemma {:induction false} AbsentCountsZero(q: seq<QueryEntry>, name: string)
    requires forall i :: 0 <= i < |q| ==> q[i].qname != name
    ensures Count(q, name) == 0
  {
    if q != [] { AbsentCountsZero(q[..|q| - 1], name); }
  }

  lemma {:induction false} CountIsOccurrences(q: seq<QueryEntry>, name: string)
    ensures Count(q, name) == |set i | 0 <= i < |q| && q[i].qname == name|
  {
    if q != [] {
      var n := |q| - 1;
      var rest, all := set i | 0 <= i < n && q[..n][i].qname == name, set i | 0 <= i < |q| && q[i].qname == name;
      CountIsOccurrences(q[..n], name);
      assert all == if q[n].qname == name then rest + {n} else rest;
    }
  }

  // ---- Ordering ----

  /** Rust's string order, by code point. */
  predicate StrLeq(a: string, b: string) {
    a == "" || (b != "" && (a[0] < b[0] || (a[0] == b[0] && StrLeq(a[1..], b[1..]))))
  }

  /** The texts first differ at `k`, where `a` has the smaller character. */
  predicate SmallerAt(a: string, b: string, k: nat) {
    k < |a| && k < |b| && a[..k] == b[..k] && a[k] < b[k]
  }

  /** One text comes before another if it is a prefix of it or has the smaller character where they first differ. */
  lemma {:induction false} StrLeqExactly(a: string, b: string)
    ensures StrLeq(a, b) <==> a <= b || exists k :: SmallerAt(a, b, k)
  {
    if a != "" && b != "" {
      var a', b' := a[1..], b[1..];
      StrLeqExactly(a', b');
      assert a == [a[0]] + a' && b == [b[0]] + b';
      if a[0] < b[0] {
        assert SmallerAt(a, b, 0);
      } else if a[0] == b[0] {
        if k: nat :| SmallerAt(a', b', k) {
          assert a[..k + 1] == [a[0]] + a'[..k] && b[..k + 1] == [b[0]] + b'[..k];
          assert SmallerAt(a, b, k + 1);
        }
        if k: nat :| SmallerAt(a, b, k) {
          assert a'[..k - 1] == a[..k][1..] && b'[..k - 1] == b[..k][1..];
          assert SmallerAt(a', b', k - 1);
        }
      } else {
        forall k: nat ensures !SmallerAt(a, b, k) {
          if 0 < k < |a| && k < |b| { assert a[..k][0] == a[0] && b[..k][0] == b[0]; }
        }
      }
    }
  }

  lemma {:induction false} StrLeqTotal(a: string, b: string)
    ensures StrLeq(a, b) || StrLeq(b, a)
    ensures StrLeq(a, b) && StrLeq(b, a) ==> a == b
  {
    if a != "" && b != "" {
      StrLeqTotal(a[1..], b[1..]);
      assert a == [a[0]] + a[1..] && b == [b[0]] + b[1..];
    }
  }

  lemma {:induction false} StrLeqTransitive(a: string, b: string, c: string)
    ensures StrLeq(a, b) && StrLeq(b, c) ==> StrLeq(a, c)
  {
    if a != "" && b != "" && c != "" { StrLeqTransitive(a[1..], b[1..], c[1..]); }
  }

  /** Larger counts first, then names in ascending order. */
  predicate RanksBefore(a: Tally, b: Tally) {
    a.1 > b.1 || (a.1 == b.1 && StrLeq(a.0, b.0))
  }

  lemma RanksBeforeIsTotalOrder()
    ensures TotalPreorder(RanksBefore) && Antisymmetric(RanksBefore)
  {
    forall a: Tally, b: Tally ensures RanksBefore(a, b) || RanksBefore(b, a)
                              ensures RanksBefore(a, b) && RanksBefore(b, a) ==> a == b {
      StrLeqTotal(a.0, b.0);
    }
    forall a: Tally, b: Tally, c: Tally ensures RanksBefore(a, b) && RanksBefore(b, c) ==> RanksBefore(a, c) {
      StrLeqTransitive(a.0, b.0, c.0);
    }
  }

  /** A hash map hands out its entries in some order, each once. */
  ghost predicate Drains(entries: seq<Tally>, counts: map<string, nat>) {
    && (forall i, j :: 0 <= i < j < |entries| ==> entries[i].0 != entries[j].0)
    && (forall i :: 0 <= i < |entries| ==> entries[i].0 in counts && entries[i].1 == counts[entries[i].0])
    && (forall n :: n in counts ==> (n, counts[n]) in entries)
  }

  lemma {:induction false} DrainsPermute(a: seq<Tally>, b: seq<Tally>, counts: map<string, nat>)
    requires Drains(a, counts) && Drains(b, counts)
    ensures multiset(a) == multiset(b)
  {
    assert Distinct(a) && Distinct(b);
    forall x: Tally ensures multiset(a)[x] == multiset(b)[x] {
      DistinctCounts(a, x);
      DistinctCounts(b, x);
      assert x in a <==> x.0 in counts && x.1 == counts[x.0];
      assert x in b <==> x.0 in counts && x.1 == counts[x.0];
      assert x in multiset(a) <==> x in a;
      assert x in multiset(b) <==> x in b;
    }
  }

  function Truncated(s: seq<Tally>, n: nat): seq<Tally> {
    if |s| <= n then s else s[..n]
  }

  /** The ranking does not depend on the hash map's order. */
  lemma RankingIgnoresHashOrder(a: seq<Tally>, b: seq<Tally>, counts: map<string, nat>, n: nat)
    requires Drains(a, counts) && Drains(b, counts)
    ensures Truncated(Sort(a, RanksBefore), n) == Truncated(Sort(b, RanksBefore), n)
  {
    RanksBeforeIsTotalOrder();
    DrainsPermute(a, b, counts);
    SortPermutes(a, RanksBefore);
    SortPermutes(b, RanksBefore);
    SortSorts(a, RanksBefore);
    SortSorts(b, RanksBefore);
    SortedIsUnique(Sort(a, RanksBefore), Sort(b, RanksBefore), RanksBefore);
  }

  /** `top` is the ranking of `q` cut to `n`: true counts, in rank order, nothing better left out, and nothing left out
      at all unless `n` names are kept. */
  ghost predicate IsTop(top: seq<Tally>, q: seq<QueryEntry>, n: nat) {
    && (forall i :: 0 <= i < |top| ==> top[i].0 in Names(q) && top[i].1 == Count(q, top[i].0))
    && (forall i, j :: 0 <= i < j < |top| ==>
          top[i] != top[j] && (top[i].1 > top[j].1 || (top[i].1 == top[j].1 && StrLeq(top[i].0, top[j].0))))
    && |top| <= n
    && (forall name :: name in Names(q) && (name, Count(q, name)) !in top ==>
          && |top| == n
          && forall i :: 0 <= i < |top| ==>
               top[i].1 > Count(q, name) || (top[i].1 == Count(q, name) && StrLeq(top[i].0, name)))
  }

  lemma SortedDrain(entries: seq<Tally>, q: seq<QueryEntry>)
    requires Drains(entries, Counts(q))
    ensures var sorted := Sort(entries, RanksBefore);
            && Distinct(sorted) && Sorted(sorted, RanksBefore)
            && (forall t: Tally :: t in sorted <==> t.0 in Names(q) && t.1 == Count(q, t.0))
  {
    var sorted := Sort(entries, RanksBefore);
    RanksBeforeIsTotalOrder();
    SortPermutes(entries, RanksBefore);
    SortSorts(entries, RanksBefore);
    assert Distinct(entries);
    PermutationKeepsDistinct(entries, sorted);
    forall t: Tally ensures t in sorted <==> t.0 in Names(q) && t.1 == Count(q, t.0) {
      assert t in sorted <==> t in multiset(sorted);
      assert t in entries <==> t in multiset(entries);
      if t.0 in Names(q) && t.1 == Count(q, t.0) { assert (t.0, Counts(q)[t.0]) in entries; }
    }
  }

  lemma SortedDrainIsTop(entries: seq<Tally>, q: seq<QueryEntry>, n: nat)
    requires Drains(entries, Counts(q))
    ensures IsTop(Truncated(Sort(entries, RanksBefore), n), q, n)
  {
    var sorted := Sort(entries, RanksBefore);
    var top := Truncated(sorted, n);
    SortedDrain(entries, q);
    forall i | 0 <= i < |top| ensures top[i] == sorted[i] && top[i].0 in Names(q) && top[i].1 == Count(q, top[i].0) {
      assert sorted[i] in sorted;
    }
    forall name | name in Names(q) && (name, Count(q, name)) !in top
      ensures |top| == n && forall i :: 0 <= i < |top| ==> RanksBefore(top[i], (name, Count(q, name)))
    {
      var t: Tally := (name, Count(q, name));
      assert t in sorted;
      var j :| 0 <= j < |sorted| && sorted[j] == t;
      assert j >= |top|;
    }
  }

  lemma CountsAppend(q: seq<QueryEntry>, i: nat)
    requires i < |q|
    ensures var counts, name := Counts(q[..i]), q[i].qname;
            Counts(q[..i + 1]) == counts[name := (if name in counts then counts[name] else 0) + 1]
  {
    var name := q[i].qname;
    assert q[..i + 1][..i] == q[..i] && q[..i + 1][i] == q[i];
    assert Names(q[..i + 1]) == Names(q[..i]) + {name} by {
      assert forall j :: 0 <= j < i ==> q[..i + 1][j] == q[..i][j];
    }
    if name !in Names(q[..i]) {
      forall j | 0 <= j < i ensures q[..i][j].qname != name { assert q[..i][j].qname in Names(q[..i]); }
      AbsentCountsZero(q[..i], name);
    }
  }

  // ---- The object ----

  class RecentQueries {
    var inner: seq<QueryEntry>
    const cap: nat
    ghost var pushed: seq<QueryEntry>   // everything ever pushed, oldest first

    /** The buffer is the newest-first list of what the capacity retains. */
    ghost predicate Valid() reads this {
      inner == Reversed(Retained(pushed, cap))
    }

    constructor (cap: nat)
      ensures Valid() && pushed == [] && this.cap == cap
    {
      inner, pushed := [], [];
      this.cap := cap;
    }

    method Push(entry: QueryEntry)
      requires Valid()
      modifies this
      ensures Valid() && pushed == old(pushed) + [entry]
      ensures inner == [entry] + (if |old(inner)| == cap > 0 then old(inner)[..cap - 1] else old(inner))
    {
      PushRetains(pushed, cap, entry);
      if |inner| == cap {
        if inner != [] { inner := inner[..|inner| - 1]; }
      }
      inner := [entry] + inner;
      pushed := pushed + [entry];
    }

    /** The newest entries first: the last `limit` of the last `cap` pushed. */
    method Snapshot(limit: nat) returns (entries: seq<QueryEntry>)
      requires Valid()
      ensures |entries| <= limit && |entries| <= |pushed| && (cap > 0 ==> |entries| <= cap)
      ensures |entries| == limit || |entries| == |pushed| || |entries| == cap > 0
      ensures forall i :: 0 <= i < |entries| ==> entries[i] == pushed[|pushed| - 1 - i]
    {
      NewestFirst(pushed, cap);
      entries := if limit < |inner| then inner[..limit] else inner;
    }

    /** The `n` most frequent names. `drain` gives the order in which the hash map yields its entries. */
    method TopQnames(n: nat, drain: map<string, nat> -> seq<Tally>) returns (top: seq<Tally>)
      requires forall m :: Drains(drain(m), m)
      ensures IsTop(top, inner, n)
      ensures forall entries :: Drains(entries, Counts(inner)) ==> top == Truncated(Sort(entries, RanksBefore), n)
    {
      var counts: map<string, nat> := map[];
      for i := 0 to |inner|
        invariant counts == Counts(inner[..i])
      {
        CountsAppend(inner, i);
        var name := inner[i].qname;
        counts := counts[name := (if name in counts then counts[name] else 0) + 1];
      }
      assert inner[..|inner|] == inner;
      var v := Sort(drain(counts), RanksBefore);
      top := if |v| <= n then v else v[..n];
      SortedDrainIsTop(drain(counts), inner, n);
      forall entries | Drains(entries, Counts(inner)) ensures top == Truncated(Sort(entries, RanksBefore), n) {
        RankingIgnoresHashOrder(drain(counts), entries, counts, n);
      }
    }
  }
}
