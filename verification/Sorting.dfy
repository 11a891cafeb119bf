/** The library sort: stable, on any total preorder. Its result is pinned down by the lemmas below. */
module Sorting {

  ghost predicate TotalPreorder<T(!new)>(leq: (T, T) -> bool) {
    && (forall a, b :: leq(a, b) || leq(b, a))
    && (forall a, b, c :: leq(a, b) && leq(b, c) ==> leq(a, c))
  }

  ghost predicate Antisymmetric<T(!new)>(leq: (T, T) -> bool) {
    forall a, b :: leq(a, b) && leq(b, a) ==> a == b
  }

  ghost predicate Sorted<T>(s: seq<T>, leq: (T, T) -> bool) {
    forall i, j :: 0 <= i < j < |s| ==> leq(s[i], s[j])
  }

  function Insert<T>(x: T, s: seq<T>, leq: (T, T) -> bool): seq<T> {
    if s == [] || leq(x, s[0]) then [x] + s else [s[0]] + Insert(x, s[1..], leq)
  }

  function Sort<T>(s: seq<T>, leq: (T, T) -> bool): seq<T> {
    if s == [] then [] else Insert(s[0], Sort(s[1..], leq), leq)
  }

  lemma {:induction false} InsertPermutes<T>(x: T, s: seq<T>, leq: (T, T) -> bool)
    ensures multiset(Insert(x, s, leq)) == multiset{x} + multiset(s)
  {
    if s != [] && !leq(x, s[0]) {
      InsertPermutes(x, s[1..], leq);
      assert s == [s[0]] + s[1..];
    }
  }

  lemma {:induction false} SortPermutes<T>(s: seq<T>, leq: (T, T) -> bool)
    ensures multiset(Sort(s, leq)) == multiset(s)
    ensures |Sort(s, leq)| == |s|
  {
    if s != [] {
      SortPermutes(s[1..], leq);
      InsertPermutes(s[0], Sort(s[1..], leq), leq);
      assert s == [s[0]] + s[1..];
    }
    assert |multiset(Sort(s, leq))| == |Sort(s, leq)|;
  }

  lemma {:induction false} InsertSorts<T(!new)>(x: T, s: seq<T>, leq: (T, T) -> bool)
    requires TotalPreorder(leq) && Sorted(s, leq)
    ensures Sorted(Insert(x, s, leq), leq)
  {
    if s != [] {
      if leq(x, s[0]) {
        var r := [x] + s;
        forall j | 0 <= j < |s| ensures leq(x, s[j]) {
          assert j == 0 || leq(s[0], s[j]);
        }
        assert forall i :: 0 < i < |r| ==> r[i] == s[i - 1];
      } else {
        InsertSorts(x, s[1..], leq);
        InsertPermutes(x, s[1..], leq);
        var t := Insert(x, s[1..], leq);
        forall j | 0 <= j < |t| ensures leq(s[0], t[j]) {
          assert t[j] in multiset(t);
          assert t[j] == x || t[j] in s[1..];
        }
      }
    }
  }

  lemma {:induction false} SortSorts<T(!new)>(s: seq<T>, leq: (T, T) -> bool)
    requires TotalPreorder(leq)
    ensures Sorted(Sort(s, leq), leq)
  {
    if s != [] {
      SortSorts(s[1..], leq);
      InsertSorts(s[0], Sort(s[1..], leq), leq);
    }
  }

  lemma HeadIsLeast<T(!new)>(a: seq<T>, x: T, leq: (T, T) -> bool)
    requires TotalPreorder(leq) && Sorted(a, leq)
    requires x in multiset(a)
    ensures leq(a[0], x)
  {
    var i :| 0 <= i < |a| && a[i] == x;
    assert leq(a[0], a[0]);
  }

  lemma SameLength<T>(a: seq<T>, b: seq<T>)
    requires multiset(a) == multiset(b)
    ensures |a| == |b|
    ensures a != [] ==> a[0] in multiset(b) && b[0] in multiset(a)
  {
    assert |a| == |multiset(a)| == |multiset(b)| == |b|;
    assert a != [] ==> a[0] in multiset(a) && b[0] in multiset(b);
  }

  lemma TailsAgree<T>(a: seq<T>, b: seq<T>)
    requires a != [] && b != [] && a[0] == b[0] && multiset(a) == multiset(b)
    ensures multiset(a[1..]) == multiset(b[1..])
  {
    assert a == [a[0]] + a[1..] && b == [b[0]] + b[1..];
    assert multiset(a[1..]) == multiset(a) - multiset{a[0]};
    assert multiset(b[1..]) == multiset(b) - multiset{b[0]};
  }

  lemma SortedTail<T>(s: seq<T>, leq: (T, T) -> bool)
    requires s != [] && Sorted(s, leq)
    ensures Sorted(s[1..], leq)
  {
    forall i, j | 0 <= i < j < |s[1..]| ensures leq(s[1..][i], s[1..][j]) {
      assert leq(s[i + 1], s[j + 1]);
    }
  }

  /** Under a total order there is only one sorted arrangement of a multiset. */
  lemma {:induction false} SortedIsUnique<T(!new)>(a: seq<T>, b: seq<T>, leq: (T, T) -> bool)
    requires TotalPreorder(leq) && Antisymmetric(leq)
    requires Sorted(a, leq) && Sorted(b, leq)
    requires multiset(a) == multiset(b)
    ensures a == b
  {
    SameLength(a, b);
    if a != [] {
      HeadIsLeast(a, b[0], leq);
      HeadIsLeast(b, a[0], leq);
      assert a[0] == b[0];
      TailsAgree(a, b);
      SortedTail(a, leq);
      SortedTail(b, leq);
      SortedIsUnique(a[1..], b[1..], leq);
    }
  }

  ghost predicate Distinct<T>(s: seq<T>) {
    forall i, j :: 0 <= i < j < |s| ==> s[i] != s[j]
  }

  lemma {:induction false} DistinctCounts<T>(s: seq<T>, x: T)
    requires Distinct(s)
    ensures multiset(s)[x] <= 1
  {
    if s != [] {
      assert s == [s[0]] + s[1..];
      forall i, j | 0 <= i < j < |s[1..]| ensures s[1..][i] != s[1..][j] { assert s[i + 1] != s[j + 1]; }
      DistinctCounts(s[1..], x);
      if s[0] == x { assert x !in s[1..]; }
    }
  }

  /** Rearranging keeps elements distinct. */
  lemma PermutationKeepsDistinct<T>(a: seq<T>, b: seq<T>)
    requires Distinct(a) && multiset(a) == multiset(b)
    ensures Distinct(b)
  {
    forall i, j | 0 <= i < j < |b| ensures b[i] != b[j] {
      DistinctCounts(a, b[i]);
      assert b == b[..j] + b[j..] && b[i] in b[..j] && b[j] in b[j..];
      assert multiset(b)[b[i]] == multiset(b[..j])[b[i]] + multiset(b[j..])[b[i]];
    }
  }
}
