/** Filtering and mapping of row lists. */
module Seqs {
  import opened ByteStrings

  // The rows a `retain` or a filtering loop keeps, in order.
  function Filter<T>(s: seq<T>, p: T -> bool): (r: seq<T>)
    ensures |r| <= |s|
  {
    if s == [] then []
    else
      var n := |s| - 1;
      Filter(s[..n], p) + if p(s[n]) then [s[n]] else []
  }

  lemma FilterSnoc<T>(s: seq<T>, p: T -> bool, i: nat)
    requires i < |s|
    ensures Filter(s[..i + 1], p) == if p(s[i]) then Filter(s[..i], p) + [s[i]] else Filter(s[..i], p)
  {
    assert s[..i + 1][..i] == s[..i];
  }

  lemma {:induction false} FilterIn<T>(s: seq<T>, p: T -> bool, x: T)
    ensures x in Filter(s, p) <==> x in s && p(x)
  {
    if s != [] {
      var n := |s| - 1;
      FilterIn(s[..n], p, x);
      assert s == s[..n] + [s[n]];
    }
  }

  ghost predicate NoRepeats<T>(s: seq<T>) {
    forall i, j :: 0 <= i < j < |s| ==> s[i] != s[j]
  }

  lemma {:induction false} FilterNoRepeats<T>(s: seq<T>, p: T -> bool)
    requires NoRepeats(s)
    ensures NoRepeats(Filter(s, p))
  {
    if s != [] {
      var n := |s| - 1;
      FilterNoRepeats(s[..n], p);
      forall i | 0 <= i < |Filter(s[..n], p)| ensures Filter(s[..n], p)[i] != s[n] {
        FilterIn(s[..n], p, Filter(s[..n], p)[i]);
      }
    }
  }

  lemma {:induction false} FilterSorted(s: seq<Bytes>, p: Bytes -> bool)
    requires Sorted(s)
    ensures Sorted(Filter(s, p))
  {
    if s != [] {
      var n := |s| - 1;
      FilterSorted(s[..n], p);
      forall i | 0 <= i < |Filter(s[..n], p)| ensures LexLt(Filter(s[..n], p)[i], s[n]) {
        FilterIn(s[..n], p, Filter(s[..n], p)[i]);
      }
    }
  }

  function SetOf<T(==)>(s: seq<T>): set<T> {
    set x | x in s
  }

  lemma SetOfSnoc<T>(s: seq<T>, i: nat)
    requires i < |s|
    ensures SetOf(s[..i + 1]) == SetOf(s[..i]) + {s[i]}
  {
    assert s[..i + 1] == s[..i] + [s[i]];
  }
}
