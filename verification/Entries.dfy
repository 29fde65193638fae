/**
 Sequences of key/value entries with distinct keys.
 */
module Entries {
  import opened Wrappers

  datatype Entry<K, V> = Entry(key: K, value: V)

  predicate Has<K(==), V>(es: seq<Entry<K, V>>, k: K) {
    exists i | 0 <= i < |es| :: es[i].key == k
  }

  ghost predicate Distinct<K, V>(es: seq<Entry<K, V>>) {
    forall i, j | 0 <= i < j < |es| :: es[i].key != es[j].key
  }

  function Without<K(==), V>(es: seq<Entry<K, V>>, k: K): seq<Entry<K, V>> {
    if es == [] then []
    else Without(es[..|es| - 1], k) + if es[|es| - 1].key == k then [] else [es[|es| - 1]]
  }

  function ValueOf<K(==), V>(es: seq<Entry<K, V>>, k: K): Option<V> {
    if es == [] then None
    else if es[|es| - 1].key == k then Some(es[|es| - 1].value)
    else ValueOf(es[..|es| - 1], k)
  }

  lemma {:induction false} WithoutKeepsOthers<K, V>(es: seq<Entry<K, V>>, k: K, x: K)
    ensures Has(Without(es, k), x) <==> Has(es, x) && x != k
    ensures x != k ==> ValueOf(Without(es, k), x) == ValueOf(es, x)
    ensures ValueOf(es, x).Some? <==> Has(es, x)
  {
    if es != [] {
      var front, last := es[..|es| - 1], es[|es| - 1];
      WithoutKeepsOthers(front, k, x);
      assert es == front + [last];
      HasAppended(front, last, x);
      if last.key != k {
        HasAppended(Without(front, k), last, x);
        assert (Without(front, k) + [last])[..|Without(front, k)|] == Without(front, k);
      } else {
        assert Without(es, k) == Without(front, k);
      }
    }
  }

  lemma HasAppended<K, V>(es: seq<Entry<K, V>>, e: Entry<K, V>, x: K)
    ensures Has(es + [e], x) <==> Has(es, x) || e.key == x
  {
    assert (es + [e])[|es|] == e;
    if Has(es, x) {
      var i :| 0 <= i < |es| && es[i].key == x;
      assert (es + [e])[i].key == x;
    }
  }

  lemma {:induction false} WithoutDistinct<K, V>(es: seq<Entry<K, V>>, k: K)
    requires Distinct(es)
    ensures Distinct(Without(es, k)) && (Has(es, k) ==> |Without(es, k)| == |es| - 1) &&
            (!Has(es, k) ==> Without(es, k) == es)
  {
    if es != [] {
      var front, last := es[..|es| - 1], es[|es| - 1];
      WithoutDistinct(front, k);
      assert es == front + [last];
      HasAppended(front, last, k);
      var w := Without(front, k);
      forall i | 0 <= i < |w|
        ensures w[i].key != last.key
      {
        WithoutKeepsOthers(front, k, w[i].key);
        assert Has(w, w[i].key);
        var j :| 0 <= j < |front| && front[j].key == w[i].key;
        assert es[j].key != last.key;
      }
    }
  }

  // Where the entry sits, removing it by key is removing it by position.
  lemma {:induction false} WithoutAt<K, V>(es: seq<Entry<K, V>>, i: nat)
    requires i < |es| && Distinct(es)
    ensures Without(es, es[i].key) == es[..i] + es[i + 1..]
    ensures ValueOf(es, es[i].key) == Some(es[i].value)
  {
    var front, last := es[..|es| - 1], es[|es| - 1];
    assert es == front + [last];
    if i < |es| - 1 {
      WithoutAt(front, i);
      assert es[i + 1..] == front[i + 1..] + [last];
    } else {
      assert !Has(front, last.key);
      WithoutDistinct(front, last.key);
    }
  }

  lemma {:induction false} WithoutConcat<K, V>(a: seq<Entry<K, V>>, b: seq<Entry<K, V>>, k: K)
    ensures Without(a + b, k) == Without(a, k) + Without(b, k)
  {
    if b == [] {
      assert a + b == a;
    } else {
      var front, last := b[..|b| - 1], b[|b| - 1];
      assert (a + b)[..|a + b| - 1] == a + front;
      WithoutConcat(a, front, k);
    }
  }
}
