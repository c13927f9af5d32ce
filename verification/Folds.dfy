/** Insertion sequences into a keyed table, and event streams of block sequences. */
module Folds {

  // ---- Streams --------------------------------------------------------------

  function Flat<A, B>(f: A -> seq<B>, s: seq<A>): seq<B>
  {
    if s == [] then [] else f(s[0]) + Flat(f, s[1..])
  }

  lemma {:induction false} FlatConcat<A, B>(f: A -> seq<B>, s: seq<A>, t: seq<A>)
    ensures Flat(f, s + t) == Flat(f, s) + Flat(f, t)
  {
    if s == [] {
      assert s + t == t;
    } else {
      assert (s + t)[1..] == s[1..] + t;
      FlatConcat(f, s[1..], t);
    }
  }

  lemma FlatNone<A, B>(f: A -> seq<B>)
    ensures Flat(f, []) == []
  {}

  lemma FlatOne<A, B>(f: A -> seq<B>, x: A)
    ensures Flat(f, [x]) == f(x)
  {
    assert Flat(f, [x]) == f(x) + Flat(f, []);
  }

  lemma FlatSnoc<A, B>(f: A -> seq<B>, s: seq<A>, x: A)
    ensures Flat(f, s + [x]) == Flat(f, s) + f(x)
  {
    FlatConcat(f, s, [x]);
    FlatOne(f, x);
  }

  lemma {:induction false} FlatIn<A, B>(f: A -> seq<B>, s: seq<A>, x: B)
    ensures x in Flat(f, s) <==> exists i :: 0 <= i < |s| && x in f(s[i])
  {
    if s != [] {
      FlatIn(f, s[1..], x);
      if x in f(s[0]) {
      } else if x in Flat(f, s[1..]) {
        var i :| 0 <= i < |s[1..]| && x in f(s[1..][i]);
        assert s[1..][i] == s[i + 1];
      } else if exists i :: 0 <= i < |s| && x in f(s[i]) {
        var i :| 0 <= i < |s| && x in f(s[i]);
        assert i > 0 && s[i] == s[1..][i - 1];
      }
    }
  }

  // ---- Insertions -----------------------------------------------------------

  datatype Put<K, V> = Put(key: K, value: V)

  function PutAll<K, V>(m: map<K, V>, ps: seq<Put<K, V>>): map<K, V>
    decreases |ps|
  {
    if ps == [] then m else PutAll(m[ps[0].key := ps[0].value], ps[1..])
  }

  lemma {:induction false} PutAllConcat<K, V>(m: map<K, V>, ps: seq<Put<K, V>>, qs: seq<Put<K, V>>)
    ensures PutAll(m, ps + qs) == PutAll(PutAll(m, ps), qs)
    decreases |ps|
  {
    if ps == [] {
      assert ps + qs == qs;
    } else {
      assert (ps + qs)[1..] == ps[1..] + qs;
      PutAllConcat(m[ps[0].key := ps[0].value], ps[1..], qs);
    }
  }

  lemma PutOne<K, V>(m: map<K, V>, p: Put<K, V>)
    ensures PutAll(m, [p]) == m[p.key := p.value]
  {
    assert PutAll(m, [p]) == PutAll(m[p.key := p.value], []);
  }

  lemma PutAllSnoc<K, V>(m: map<K, V>, ps: seq<Put<K, V>>, i: nat)
    requires i < |ps|
    ensures PutAll(m, ps[..i + 1]) == PutAll(m, ps[..i])[ps[i].key := ps[i].value]
  {
    assert ps[..i + 1] == ps[..i] + [ps[i]];
    PutAllConcat(m, ps[..i], [ps[i]]);
  }

  // Insertions overlay the table they start from, whatever it held.
  lemma {:induction false} PutAllOverlays<K, V>(m: map<K, V>, ps: seq<Put<K, V>>)
    ensures PutAll(m, ps) == m + PutAll(map[], ps)
    ensures forall k :: k in PutAll(map[], ps) <==> exists i :: 0 <= i < |ps| && ps[i].key == k
    decreases |ps|
  {
    if ps != [] {
      var one: map<K, V> := map[ps[0].key := ps[0].value];
      var m' := m[ps[0].key := ps[0].value];
      PutAllOverlays(m', ps[1..]);
      PutAllOverlays(one, ps[1..]);
      var empty: map<K, V> := map[];
      assert empty[ps[0].key := ps[0].value] == one;
      assert PutAll(empty, ps) == one + PutAll(map[], ps[1..]);
      assert m' + PutAll(map[], ps[1..]) == m + (one + PutAll(map[], ps[1..]));
      assert forall k :: k in PutAll(empty, ps) <==> k == ps[0].key || k in PutAll(map[], ps[1..]);
      assert forall i :: 0 <= i < |ps[1..]| ==> ps[1..][i] == ps[i + 1];
      forall k | exists i :: 0 <= i < |ps| && ps[i].key == k ensures k in PutAll(empty, ps) {
        var i :| 0 <= i < |ps| && ps[i].key == k;
        assert i == 0 || ps[1..][i - 1].key == k;
      }
    }
  }

  // A row present after the insertions was inserted with that value, by the last
  // insertion at its key, or was there before and never overwritten.
  lemma {:induction false} PutAllLast<K, V>(m: map<K, V>, ps: seq<Put<K, V>>, k: K)
    requires k in PutAll(m, ps)
    ensures (exists i :: 0 <= i < |ps| && ps[i] == Put(k, PutAll(m, ps)[k])
                         && forall j :: i < j < |ps| ==> ps[j].key != k)
            || (k in m && m[k] == PutAll(m, ps)[k] && forall i :: 0 <= i < |ps| ==> ps[i].key != k)
  {
    if ps != [] {
      var n := |ps| - 1;
      PutAllSnoc(m, ps, n);
      assert ps[..n + 1] == ps;
      if ps[n].key == k {
        assert ps[n] == Put(k, PutAll(m, ps)[k]);
      } else {
        PutAllLast(m, ps[..n], k);
        assert forall i :: 0 <= i < n ==> ps[..n][i] == ps[i];
      }
    }
  }

  // What holds of every old row and of every insertion holds of every row afterwards.
  lemma {:induction false} PutAllKeeps<K, V>(m: map<K, V>, ps: seq<Put<K, V>>, p: (K, V) -> bool)
    requires forall k :: k in m ==> p(k, m[k])
    requires forall i :: 0 <= i < |ps| ==> p(ps[i].key, ps[i].value)
    ensures forall k :: k in PutAll(m, ps) ==> p(k, PutAll(m, ps)[k])
    decreases |ps|
  {
    if ps != [] {
      PutAllKeeps(m[ps[0].key := ps[0].value], ps[1..], p);
    }
  }
}
