/**
 Sorting a sequence by a total preorder, as sort.Slice leaves it.
 */
module Sorting {
  import opened Bytes

  function Insert<T>(x: T, s: seq<T>, leq: (T, T) -> bool): seq<T> {
    if s == [] || leq(x, s[0]) then [x] + s else [s[0]] + Insert(x, s[1..], leq)
  }

  function Sort<T>(s: seq<T>, leq: (T, T) -> bool): seq<T> {
    if s == [] then [] else Insert(s[0], Sort(s[1..], leq), leq)
  }

  ghost predicate Ordered<T>(s: seq<T>, leq: (T, T) -> bool) {
    forall i, j | 0 <= i < j < |s| :: leq(s[i], s[j])
  }

  ghost predicate TotalOrder<T(!new)>(leq: (T, T) -> bool) {
    && (forall a, b :: leq(a, b) || leq(b, a))
    && (forall a, b, c {:trigger leq(a, b), leq(b, c)} :: leq(a, b) && leq(b, c) ==> leq(a, c))
  }

  lemma {:induction false} InsertPermutes<T>(x: T, s: seq<T>, leq: (T, T) -> bool)
    ensures multiset(Insert(x, s, leq)) == multiset(s) + multiset{x}
  {
    if s != [] && !leq(x, s[0]) {
      InsertPermutes(x, s[1..], leq);
      assert s == [s[0]] + s[1..];
    }
  }

  lemma FirstOrdered<T>(x: T, s: seq<T>, leq: (T, T) -> bool)
    requires Ordered(s, leq) && forall i | 0 <= i < |s| :: leq(x, s[i])
    ensures Ordered([x] + s, leq)
  {
  }

  lemma {:induction false} InsertOrdered<T(!new)>(x: T, s: seq<T>, leq: (T, T) -> bool)
    requires TotalOrder(leq) && Ordered(s, leq)
    ensures Ordered(Insert(x, s, leq), leq)
  {
    if s == [] {
    } else if leq(x, s[0]) {
      forall i | 0 <= i < |s|
        ensures leq(x, s[i])
      {
        assert i == 0 || leq(s[0], s[i]);
      }
      FirstOrdered(x, s, leq);
    } else {
      var rest := Insert(x, s[1..], leq);
      InsertOrdered(x, s[1..], leq);
      InsertPermutes(x, s[1..], leq);
      forall j | 0 <= j < |rest|
        ensures leq(s[0], rest[j])
      {
        assert rest[j] in multiset(rest);
        if rest[j] != x {
          assert rest[j] in multiset(s[1..]);
        }
      }
      FirstOrdered(s[0], rest, leq);
    }
  }

  lemma {:induction false} SortPermutes<T>(s: seq<T>, leq: (T, T) -> bool)
    ensures multiset(Sort(s, leq)) == multiset(s)
  {
    if s != [] {
      SortPermutes(s[1..], leq);
      InsertPermutes(s[0], Sort(s[1..], leq), leq);
      assert s == [s[0]] + s[1..];
    }
  }

  // Sorting gives an ordered permutation.
  lemma {:induction false} SortOrdered<T(!new)>(s: seq<T>, leq: (T, T) -> bool)
    requires TotalOrder(leq)
    ensures Ordered(Sort(s, leq), leq) && multiset(Sort(s, leq)) == multiset(s)
  {
    SortPermutes(s, leq);
    if s != [] {
      SortOrdered(s[1..], leq);
      InsertOrdered(s[0], Sort(s[1..], leq), leq);
    }
  }

  lemma SortMembers<T(!new)>(s: seq<T>, leq: (T, T) -> bool)
    requires TotalOrder(leq)
    ensures |Sort(s, leq)| == |s| && forall x :: x in Sort(s, leq) <==> x in s
  {
    SortOrdered(s, leq);
    assert |multiset(s)| == |s| && |multiset(Sort(s, leq))| == |Sort(s, leq)|;
    assert forall x :: x in Sort(s, leq) <==> x in multiset(Sort(s, leq));
  }

  ghost predicate AllDifferent<T>(s: seq<T>) {
    forall i, j | 0 <= i < j < |s| :: s[i] != s[j]
  }

  lemma {:induction false} DistinctAsMultiset<T(!new)>(s: seq<T>)
    requires AllDifferent(s)
    ensures forall x :: multiset(s)[x] <= 1
  {
    if s != [] {
      DistinctAsMultiset(s[1..]);
      assert s == [s[0]] + s[1..];
      assert s[0] !in s[1..];
      assert multiset(s[1..])[s[0]] == 0;
    }
  }

  lemma MultisetDistinct<T(!new)>(s: seq<T>)
    requires forall x :: multiset(s)[x] <= 1
    ensures AllDifferent(s)
  {
    forall i, j | 0 <= i < j < |s|
      ensures s[i] != s[j]
    {
      assert s == s[..i] + [s[i]] + s[i + 1..j] + [s[j]] + s[j + 1..];
      assert multiset(s) >= multiset{s[i], s[j]};
    }
  }

  lemma SortDistinct<T(!new)>(s: seq<T>, leq: (T, T) -> bool)
    requires TotalOrder(leq) && AllDifferent(s)
    ensures AllDifferent(Sort(s, leq))
  {
    SortOrdered(s, leq);
    DistinctAsMultiset(s);
    MultisetDistinct(Sort(s, leq));
  }

  // ---------- The order of bytes.Compare ----------

  predicate NotAfter(a: bytes, b: bytes) {
    !Less(b, a)
  }

  lemma NotAfterIsOrder()
    ensures TotalOrder(NotAfter)
  {
    forall a, b
      ensures NotAfter(a, b) || NotAfter(b, a)
    {
      if Less(a, b) && Less(b, a) {
        LessTransitive(a, b, a);
        LessIrreflexive(a);
      }
    }
    forall a, b, c | NotAfter(a, b) && NotAfter(b, c)
      ensures NotAfter(a, c)
    {
      LessTotal(a, b);
      LessTotal(b, c);
      if Less(c, a) {
        if Less(a, b) { LessTransitive(c, a, b); }
      }
    }
  }
}
