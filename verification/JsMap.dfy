/** JavaScript's insertion-ordered Map: the entries in order, keys distinct.
    Overwriting keeps a key's position; a new key goes to the end. */
module JsMap {
  ghost predicate Distinct<K, V>(m: seq<(K, V)>) {
    forall i, j | 0 <= i < j < |m| :: m[i].0 != m[j].0
  }

  function Put<K(==), V>(m: seq<(K, V)>, k: K, v: V): seq<(K, V)> {
    if m == [] then [(k, v)]
    else if m[0].0 == k then [(k, v)] + m[1..]
    else [m[0]] + Put(m[1..], k, v)
  }

  function Remove<K(==), V>(m: seq<(K, V)>, k: K): seq<(K, V)> {
    if m == [] then []
    else if m[0].0 == k then m[1..]
    else [m[0]] + Remove(m[1..], k)
  }

  function Values<K, V>(m: seq<(K, V)>): seq<V> {
    if m == [] then [] else [m[0].1] + Values(m[1..])
  }

  /** The map a Map stands for once its order is forgotten. */
  function View<K(==), V>(m: seq<(K, V)>): map<K, V> {
    if m == [] then map[] else View(m[1..])[m[0].0 := m[0].1]
  }

  lemma {:induction false} PutView<K, V>(m: seq<(K, V)>, k: K, v: V)
    ensures View(Put(m, k, v)) == View(m)[k := v]
  {
    if m != [] && m[0].0 != k {
      PutView(m[1..], k, v);
      assert Put(m, k, v)[1..] == Put(m[1..], k, v);
    } else if m != [] {
      assert Put(m, k, v)[1..] == m[1..];
    }
  }

  lemma {:induction false} RemoveView<K, V>(m: seq<(K, V)>, k: K)
    requires Distinct(m)
    ensures Distinct(Remove(m, k)) && View(Remove(m, k)) == View(m) - {k}
  {
    if m != [] {
      var tail := m[1..];
      assert forall i | 0 <= i < |tail| :: tail[i] == m[i + 1];
      if m[0].0 != k {
        RemoveView(tail, k);
        var r := Remove(tail, k);
        assert Remove(m, k)[1..] == r;
        forall i | 0 <= i < |r| ensures r[i].0 != m[0].0 {
          ViewKeys(r, r[i].0);
          ViewKeys(tail, r[i].0);
        }
      } else {
        ViewKeys(tail, k);
      }
    }
  }

  lemma {:induction false} ViewKeys<K, V>(m: seq<(K, V)>, k: K)
    ensures k in View(m) <==> exists i :: 0 <= i < |m| && m[i].0 == k
  {
    if m != [] {
      ViewKeys(m[1..], k);
      if k in View(m) && k != m[0].0 {
        var i :| 0 <= i < |m[1..]| && m[1..][i].0 == k;
        assert m[i + 1].0 == k;
      } else if exists i :: 0 <= i < |m| && m[i].0 == k {
        var i :| 0 <= i < |m| && m[i].0 == k;
        if i > 0 { assert m[1..][i - 1].0 == k; }
      }
    }
  }

  lemma {:induction false} PutDistinct<K, V>(m: seq<(K, V)>, k: K, v: V)
    requires Distinct(m)
    ensures Distinct(Put(m, k, v))
    ensures |m| <= |Put(m, k, v)| <= |m| + 1
    ensures Put(m, k, v) != []
  {
    if m != [] {
      var tail := m[1..];
      assert Distinct(tail) by {
        assert forall i | 0 <= i < |tail| :: tail[i] == m[i + 1];
      }
      if m[0].0 != k {
        PutDistinct(tail, k, v);
        var r := Put(tail, k, v);
        forall i | 0 <= i < |r| ensures r[i].0 != m[0].0 {
          PutView(tail, k, v);
          ViewKeys(r, r[i].0);
          ViewKeys(tail, r[i].0);
        }
      }
    }
  }

  lemma {:induction false} ViewSize<K, V>(m: seq<(K, V)>)
    requires Distinct(m)
    ensures |View(m)| == |m|
  {
    if m != [] {
      var tail := m[1..];
      assert Distinct(tail) by {
        assert forall i | 0 <= i < |tail| :: tail[i] == m[i + 1];
      }
      ViewSize(tail);
      ViewKeys(tail, m[0].0);
      assert m[0].0 !in View(tail);
    }
  }

  lemma PutNew<K, V>(m: seq<(K, V)>, k: K, v: V)
    requires Distinct(m) && k !in View(m)
    ensures Distinct(Put(m, k, v)) && |Put(m, k, v)| == |m| + 1
  {
    PutView(m, k, v);
    PutDistinct(m, k, v);
    ViewSize(m);
    ViewSize(Put(m, k, v));
  }

  lemma ValuesHead<K, V>(m: seq<(K, V)>)
    requires m != []
    ensures multiset(Values(m)) == multiset{m[0].1} + multiset(Values(m[1..]))
  {
  }

  lemma ValuesPush<K, V>(e: (K, V), m: seq<(K, V)>)
    ensures multiset(Values([e] + m)) == multiset{e.1} + multiset(Values(m))
  {
    assert ([e] + m)[1..] == m;
  }

  lemma MoveLast<V>(x: V, m: multiset<V>, y: V)
    ensures multiset{x} + (m + multiset{y}) == (multiset{x} + m) + multiset{y}
  {
  }

  lemma CutTail<K, V>(m: seq<(K, V)>, i: nat)
    requires 0 < i < |m|
    ensures m[..i] + m[i + 1..] == [m[0]] + (m[1..][..i - 1] + m[1..][i..])
  {
  }

  lemma {:induction false} ValuesCut<K, V>(m: seq<(K, V)>, i: nat)
    requires i < |m|
    ensures multiset(Values(m)) == multiset(Values(m[..i] + m[i + 1..])) + multiset{m[i].1}
  {
    ValuesHead(m);
    if i > 0 {
      ValuesCut(m[1..], i - 1);
      CutTail(m, i);
      var less := multiset(Values(m[1..][..i - 1] + m[1..][i..]));
      calc {
        multiset(Values(m));
        multiset{m[0].1} + multiset(Values(m[1..]));
        multiset{m[0].1} + (less + multiset{m[i].1});
        { MoveLast(m[0].1, less, m[i].1); }
        (multiset{m[0].1} + less) + multiset{m[i].1};
        { ValuesPush(m[0], m[1..][..i - 1] + m[1..][i..]); }
        multiset(Values(m[..i] + m[i + 1..])) + multiset{m[i].1};
      }
    } else {
      assert m[..i] + m[i + 1..] == m[1..];
    }
  }

  lemma {:induction false} ViewCut<K, V>(m: seq<(K, V)>, i: nat)
    requires Distinct(m) && i < |m|
    ensures Distinct(m[..i] + m[i + 1..])
    ensures View(m[..i] + m[i + 1..]) == View(m) - {m[i].0}
    ensures m[i].0 in View(m) && View(m)[m[i].0] == m[i].1
  {
    var cut := m[..i] + m[i + 1..];
    var tail := m[1..];
    assert forall j | 0 <= j < |tail| :: tail[j] == m[j + 1];
    assert Distinct(cut) by {
      assert forall j | 0 <= j < |cut| :: cut[j] == m[if j < i then j else j + 1];
    }
    if i > 0 {
      ViewCut(tail, i - 1);
      assert cut[1..] == tail[..i - 1] + tail[i..];
      assert cut[0] == m[0];
    } else {
      assert cut == tail;
      ViewKeys(tail, m[0].0);
    }
  }

  /** Two Maps with the same content hold the same values, each as often, whatever
      the order in which they were filled. */
  lemma {:induction false} SameViewSameValues<K, V>(a: seq<(K, V)>, b: seq<(K, V)>)
    requires Distinct(a) && Distinct(b) && View(a) == View(b)
    ensures multiset(Values(a)) == multiset(Values(b))
  {
    if a == [] {
      ViewSize(b);
    } else {
      ViewCut(a, 0);
      ViewKeys(b, a[0].0);
      var j :| 0 <= j < |b| && b[j].0 == a[0].0;
      ViewCut(b, j);
      assert a[..0] + a[1..] == a[1..];
      SameViewSameValues(a[1..], b[..j] + b[j + 1..]);
      ValuesCut(b, j);
    }
  }
}
