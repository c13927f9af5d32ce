/**
 Sorting and cursor paging of a row list, and what a client collects by
 following the cursors of one fixed listing to the end.
 */
module Paging {
  import opened Records
  import opened Seqs

  datatype Page<R, K> = Page(rows: seq<R>, next: Option<K>)

  ghost predicate StrictOrder<K(!new)>(lt: (K, K) -> bool) {
    && (forall a :: !lt(a, a))
    && (forall a, b, c :: lt(a, b) && lt(b, c) ==> lt(a, c))
    && (forall a, b :: lt(a, b) || a == b || lt(b, a))
  }

  function Later<R, K>(key: R -> K, lt: (K, K) -> bool, c: K): R -> bool {
    r => lt(c, key(r))
  }

  function NotLater<R, K>(key: R -> K, lt: (K, K) -> bool, c: K): R -> bool {
    r => !lt(c, key(r))
  }

  // The rows a page request is answered from.
  function After<R, K>(rows: seq<R>, key: R -> K, lt: (K, K) -> bool, cursor: Option<K>): seq<R> {
    match cursor
    case None => rows
    case Some(c) => Filter(rows, Later(key, lt, c))
  }

  // One page. With nothing left the answer is empty whatever the limit; with rows left a
  // limit of zero indexes before the first row, and the request fails.
  function TakePage<R, K>(rows: seq<R>, key: R -> K, lt: (K, K) -> bool, limit: nat, cursor: Option<K>): Result<Page<R, K>> {
    var rest := After(rows, key, lt, cursor);
    if |rest| <= limit then Ok(Page(rest, None))
    else if limit == 0 then Err
    else Ok(Page(rest[..limit], Some(key(rest[limit - 1]))))
  }

  // A page has at most `limit` rows, the first ones left; it has a cursor exactly when more
  // are left, and the cursor is that of its last row.
  lemma PageMeans<R, K>(rows: seq<R>, key: R -> K, lt: (K, K) -> bool, limit: nat, cursor: Option<K>)
    ensures var rest, page := After(rows, key, lt, cursor), TakePage(rows, key, lt, limit, cursor);
            && (page.Err? <==> limit == 0 && rest != [])
            && (page.Ok? ==>
                  && |page.value.rows| <= limit && page.value.rows <= rest
                  && (page.value.next.None? <==> page.value.rows == rest)
                  && (page.value.next.Some? ==> |page.value.rows| == limit)
                  && (page.value.next.Some? ==> page.value.next.value == key(page.value.rows[|page.value.rows| - 1])))
  {}

  ghost predicate SortedBy<R, K>(rows: seq<R>, key: R -> K, lt: (K, K) -> bool) {
    forall i, j :: 0 <= i < j < |rows| ==> !lt(key(rows[j]), key(rows[i]))
  }

  ghost predicate DistinctKeys<R, K>(rows: seq<R>, key: R -> K) {
    forall i, j :: 0 <= i < j < |rows| ==> key(rows[i]) != key(rows[j])
  }

  // ---- Filters over a listing ------------------------------------------------

  lemma FilterOne<T>(x: T, p: T -> bool)
    ensures Filter([x], p) == if p(x) then [x] else []
  {
    assert [x][..0] == [];
  }

  lemma {:induction false} FilterMeet<T>(s: seq<T>, p: T -> bool, q: T -> bool, r: T -> bool)
    requires forall x :: r(x) <==> p(x) && q(x)
    ensures Filter(Filter(s, p), q) == Filter(s, r)
  {
    if s != [] {
      var n := |s| - 1;
      FilterMeet(s[..n], p, q, r);
      var front := Filter(s[..n], p);
      if p(s[n]) {
        assert Filter(s, p) == front + [s[n]];
        FilterConcat(front, [s[n]], q);
        FilterOne(s[n], q);
      } else {
        assert Filter(s, p) == front && Filter(s, r) == Filter(s[..n], r);
      }
    }
  }

  lemma {:induction false} FilterConcat<T>(s: seq<T>, t: seq<T>, p: T -> bool)
    ensures Filter(s + t, p) == Filter(s, p) + Filter(t, p)
  {
    if t == [] {
      assert s + t == s;
    } else {
      var n := |t| - 1;
      assert (s + t)[..|s + t| - 1] == s + t[..n];
      FilterConcat(s, t[..n], p);
    }
  }

  lemma {:induction false} FilterNone<T>(s: seq<T>, p: T -> bool)
    requires forall i :: 0 <= i < |s| ==> !p(s[i])
    ensures Filter(s, p) == []
  {
    if s != [] {
      FilterNone(s[..|s| - 1], p);
    }
  }

  lemma {:induction false} FilterAll<T>(s: seq<T>, p: T -> bool)
    requires forall i :: 0 <= i < |s| ==> p(s[i])
    ensures Filter(s, p) == s
  {
    if s != [] {
      FilterAll(s[..|s| - 1], p);
    }
  }

  lemma {:induction false} FilterSortedBy<R, K>(s: seq<R>, p: R -> bool, key: R -> K, lt: (K, K) -> bool)
    requires SortedBy(s, key, lt)
    ensures SortedBy(Filter(s, p), key, lt)
  {
    if s != [] {
      var n := |s| - 1;
      FilterSortedBy(s[..n], p, key, lt);
      forall i | 0 <= i < |Filter(s[..n], p)| ensures !lt(key(s[n]), key(Filter(s[..n], p)[i])) {
        FilterIn(s[..n], p, Filter(s[..n], p)[i]);
      }
    }
  }

  lemma {:induction false} FilterSplit<T>(s: seq<T>, p: T -> bool, q: T -> bool)
    requires forall x :: p(x) <==> !q(x)
    ensures multiset(s) == multiset(Filter(s, p)) + multiset(Filter(s, q))
  {
    if s != [] {
      var n := |s| - 1;
      FilterSplit(s[..n], p, q);
      assert s == s[..n] + [s[n]];
    }
  }

  lemma {:induction false} FilterDrops<T>(s: seq<T>, p: T -> bool, i: nat)
    requires i < |s| && !p(s[i])
    ensures |Filter(s, p)| < |s|
  {
    if i < |s| - 1 {
      FilterDrops(s[..|s| - 1], p, i);
    }
  }

  // ---- Following the cursors -------------------------------------------------

  lemma AfterAfter<R, K(!new)>(rows: seq<R>, key: R -> K, lt: (K, K) -> bool, limit: nat, cursor: Option<K>)
    requires StrictOrder(lt) && 1 <= limit < |After(rows, key, lt, cursor)|
    ensures var rest := After(rows, key, lt, cursor);
            var c := key(rest[limit - 1]);
            && After(rows, key, lt, Some(c)) == After(rest, key, lt, Some(c))
            && |After(rest, key, lt, Some(c))| < |rest|
  {
    var rest := After(rows, key, lt, cursor);
    var c := key(rest[limit - 1]);
    if cursor.Some? {
      FilterIn(rows, Later(key, lt, cursor.value), rest[limit - 1]);
      FilterMeet(rows, Later(key, lt, cursor.value), Later(key, lt, c), Later(key, lt, c));
    }
    FilterDrops(rest, Later(key, lt, c), limit - 1);
  }

  // Everything a client sees that follows the cursors of an unchanging listing to the end.
  ghost function Collect<R, K(!new)>(rows: seq<R>, key: R -> K, lt: (K, K) -> bool, limit: nat, cursor: Option<K>): seq<R>
    requires StrictOrder(lt) && limit >= 1
    decreases |After(rows, key, lt, cursor)|
  {
    var page := TakePage(rows, key, lt, limit, cursor).value;
    if page.next.None? then page.rows
    else
      AfterAfter(rows, key, lt, limit, cursor);
      page.rows + Collect(rows, key, lt, limit, page.next)
  }

  // The same, from the rows that are left.
  ghost function Shown<R, K(!new)>(rest: seq<R>, key: R -> K, lt: (K, K) -> bool, limit: nat): seq<R>
    requires StrictOrder(lt) && limit >= 1
    decreases |rest|
  {
    if |rest| <= limit then rest
    else
      AfterAfter(rest, key, lt, limit, None);
      rest[..limit] + Shown(After(rest, key, lt, Some(key(rest[limit - 1]))), key, lt, limit)
  }

  // The rows a page boundary hides, and the last keys of the pages that have a successor.
  ghost function Hidden<R, K(!new)>(rest: seq<R>, key: R -> K, lt: (K, K) -> bool, limit: nat): seq<R>
    requires StrictOrder(lt) && limit >= 1
    decreases |rest|
  {
    if |rest| <= limit then []
    else
      AfterAfter(rest, key, lt, limit, None);
      var c := key(rest[limit - 1]);
      Filter(rest[limit..], NotLater(key, lt, c)) + Hidden(After(rest, key, lt, Some(c)), key, lt, limit)
  }

  ghost function PageEnds<R, K(!new)>(rest: seq<R>, key: R -> K, lt: (K, K) -> bool, limit: nat): seq<K>
    requires StrictOrder(lt) && limit >= 1
    decreases |rest|
  {
    if |rest| <= limit then []
    else
      AfterAfter(rest, key, lt, limit, None);
      var c := key(rest[limit - 1]);
      [c] + PageEnds(After(rest, key, lt, Some(c)), key, lt, limit)
  }

  lemma {:induction false} CollectIsShown<R, K(!new)>(rows: seq<R>, key: R -> K, lt: (K, K) -> bool, limit: nat, cursor: Option<K>)
    requires StrictOrder(lt) && limit >= 1
    ensures Collect(rows, key, lt, limit, cursor) == Shown(After(rows, key, lt, cursor), key, lt, limit)
    decreases |After(rows, key, lt, cursor)|
  {
    var rest := After(rows, key, lt, cursor);
    if |rest| > limit {
      AfterAfter(rows, key, lt, limit, cursor);
      CollectIsShown(rows, key, lt, limit, Some(key(rest[limit - 1])));
    }
  }

  // Past the first page of a sorted listing, only later rows can follow its last key.
  lemma AfterFirstPage<R, K(!new)>(rest: seq<R>, key: R -> K, lt: (K, K) -> bool, limit: nat)
    requires StrictOrder(lt) && SortedBy(rest, key, lt) && 1 <= limit < |rest|
    ensures var c := key(rest[limit - 1]);
            After(rest, key, lt, Some(c)) == Filter(rest[limit..], Later(key, lt, c))
  {
    var c := key(rest[limit - 1]);
    assert rest == rest[..limit] + rest[limit..];
    FilterConcat(rest[..limit], rest[limit..], Later(key, lt, c));
    FilterNone(rest[..limit], Later(key, lt, c));
  }

  lemma HiddenTies<R, K(!new)>(rest: seq<R>, key: R -> K, lt: (K, K) -> bool, limit: nat, r: R)
    requires StrictOrder(lt) && SortedBy(rest, key, lt) && 1 <= limit < |rest|
    requires r in Filter(rest[limit..], NotLater(key, lt, key(rest[limit - 1])))
    ensures key(r) == key(rest[limit - 1])
  {
    FilterIn(rest[limit..], NotLater(key, lt, key(rest[limit - 1])), r);
    var i :| 0 <= i < |rest[limit..]| && rest[limit..][i] == r;
    assert r == rest[limit + i];
  }

  lemma FirstPageSplits<R, K(!new)>(rest: seq<R>, key: R -> K, lt: (K, K) -> bool, limit: nat)
    requires StrictOrder(lt) && SortedBy(rest, key, lt) && 1 <= limit < |rest|
    ensures var c := key(rest[limit - 1]);
            && SortedBy(After(rest, key, lt, Some(c)), key, lt)
            && multiset(rest) == multiset(rest[..limit]) + multiset(After(rest, key, lt, Some(c)))
                                 + multiset(Filter(rest[limit..], NotLater(key, lt, c)))
  {
    var c := key(rest[limit - 1]);
    AfterFirstPage(rest, key, lt, limit);
    FilterSortedBy(rest, Later(key, lt, c), key, lt);
    FilterSplit(rest[limit..], Later(key, lt, c), NotLater(key, lt, c));
    assert rest == rest[..limit] + rest[limit..];
  }

  // Nothing is shown twice, and a row is missing only when it ties with the last row of a page.
  lemma {:induction false} PagingPartition<R, K(!new)>(rest: seq<R>, key: R -> K, lt: (K, K) -> bool, limit: nat)
    requires StrictOrder(lt) && SortedBy(rest, key, lt) && limit >= 1
    ensures multiset(rest) == multiset(Shown(rest, key, lt, limit)) + multiset(Hidden(rest, key, lt, limit))
    ensures forall r :: r in Hidden(rest, key, lt, limit) ==> key(r) in PageEnds(rest, key, lt, limit)
    decreases |rest|
  {
    hide Filter, SortedBy, StrictOrder;
    if |rest| > limit {
      var c := key(rest[limit - 1]);
      AfterAfter(rest, key, lt, limit, None);
      FirstPageSplits(rest, key, lt, limit);
      PagingPartition(After(rest, key, lt, Some(c)), key, lt, limit);
      forall r | r in Filter(rest[limit..], NotLater(key, lt, c)) ensures key(r) == c {
        HiddenTies(rest, key, lt, limit, r);
      }
    }
  }

  // No page boundary falls between two rows with one key.
  ghost predicate CleanCuts<R, K>(rows: seq<R>, key: R -> K, limit: nat)
    requires limit >= 1
    decreases |rows|
  {
    |rows| > limit ==> key(rows[limit - 1]) != key(rows[limit]) && CleanCuts(rows[limit..], key, limit)
  }

  lemma ShownLength<R, K(!new)>(rest: seq<R>, key: R -> K, lt: (K, K) -> bool, limit: nat)
    requires StrictOrder(lt) && SortedBy(rest, key, lt) && limit >= 1
    ensures |Shown(rest, key, lt, limit)| <= |rest|
  {
    PagingPartition(rest, key, lt, limit);
    assert |multiset(rest)| == |multiset(Shown(rest, key, lt, limit))| + |multiset(Hidden(rest, key, lt, limit))|;
  }

  lemma CleanCutKeepsAll<R, K(!new)>(rest: seq<R>, key: R -> K, lt: (K, K) -> bool, limit: nat)
    requires StrictOrder(lt) && SortedBy(rest, key, lt) && 1 <= limit < |rest|
    requires key(rest[limit - 1]) != key(rest[limit])
    ensures After(rest, key, lt, Some(key(rest[limit - 1]))) == rest[limit..]
  {
    var c := key(rest[limit - 1]);
    AfterFirstPage(rest, key, lt, limit);
    forall i | 0 <= i < |rest[limit..]| ensures lt(c, key(rest[limit..][i])) {
      assert lt(c, key(rest[limit]));
      assert i == 0 || !lt(key(rest[limit + i]), key(rest[limit]));
    }
    FilterAll(rest[limit..], Later(key, lt, c));
  }

  // The pages are exactly the listing when and only when no boundary falls inside a tie.
  lemma {:induction false} PagingExact<R, K(!new)>(rest: seq<R>, key: R -> K, lt: (K, K) -> bool, limit: nat)
    requires StrictOrder(lt) && SortedBy(rest, key, lt) && limit >= 1
    ensures Shown(rest, key, lt, limit) == rest <==> CleanCuts(rest, key, limit)
    decreases |rest|
  {
    if |rest| > limit {
      var c := key(rest[limit - 1]);
      var next := After(rest, key, lt, Some(c));
      AfterAfter(rest, key, lt, limit, None);
      AfterFirstPage(rest, key, lt, limit);
      FilterSortedBy(rest, Later(key, lt, c), key, lt);
      assert rest == rest[..limit] + rest[limit..];
      if c != key(rest[limit]) {
        CleanCutKeepsAll(rest, key, lt, limit);
        PagingExact(next, key, lt, limit);
        if Shown(rest, key, lt, limit) == rest {
          assert Shown(next, key, lt, limit) == Shown(rest, key, lt, limit)[limit..];
        }
      } else {
        FilterDrops(rest[limit..], Later(key, lt, c), 0);
        ShownLength(next, key, lt, limit);
      }
    }
  }

  lemma {:induction false} DistinctCutsClean<R, K>(rows: seq<R>, key: R -> K, limit: nat)
    requires DistinctKeys(rows, key) && limit >= 1
    ensures CleanCuts(rows, key, limit)
    decreases |rows|
  {
    if |rows| > limit {
      DistinctCutsClean(rows[limit..], key, limit);
    }
  }

  // What a client collects from the first page on: all of a listing whose boundaries are clean.
  lemma PagingTheorem<R, K(!new)>(rows: seq<R>, key: R -> K, lt: (K, K) -> bool, limit: nat)
    requires StrictOrder(lt) && SortedBy(rows, key, lt) && limit >= 1
    ensures var all := Collect(rows, key, lt, limit, None);
            && multiset(rows) == multiset(all) + multiset(Hidden(rows, key, lt, limit))
            && (forall r :: r in Hidden(rows, key, lt, limit) ==> key(r) in PageEnds(rows, key, lt, limit))
            && (all == rows <==> CleanCuts(rows, key, limit))
            && (DistinctKeys(rows, key) ==> all == rows)
  {
    CollectIsShown(rows, key, lt, limit, None);
    PagingPartition(rows, key, lt, limit);
    PagingExact(rows, key, lt, limit);
    if DistinctKeys(rows, key) {
      DistinctCutsClean(rows, key, limit);
    }
  }

  // Pages of every size show the whole listing.
  ghost predicate Complete<R, K(!new)>(rows: seq<R>, key: R -> K, lt: (K, K) -> bool)
    requires StrictOrder(lt)
  {
    forall limit: nat :: limit >= 1 ==> Collect(rows, key, lt, limit, None) == rows
  }

  // Two rows that tie are next to each other, or some others that tie with them are.
  lemma TiesAreAdjacent<R, K(!new)>(rows: seq<R>, key: R -> K, lt: (K, K) -> bool) returns (i: nat)
    requires StrictOrder(lt) && SortedBy(rows, key, lt) && !DistinctKeys(rows, key)
    ensures i + 1 < |rows| && key(rows[i]) == key(rows[i + 1])
  {
    var j;
    i, j :| 0 <= i < j < |rows| && key(rows[i]) == key(rows[j]);
    assert !lt(key(rows[i + 1]), key(rows[i]));
    assert i + 1 < j ==> !lt(key(rows[j]), key(rows[i + 1]));
  }

  // Pages of every size are complete exactly when no two rows have the same key: of two
  // that tie, some page size ends a page between them.
  lemma CompleteWhenDistinct<R, K(!new)>(rows: seq<R>, key: R -> K, lt: (K, K) -> bool)
    requires StrictOrder(lt) && SortedBy(rows, key, lt)
    ensures Complete(rows, key, lt) <==> DistinctKeys(rows, key)
  {
    hide Collect, StrictOrder, SortedBy, Hidden, PageEnds, DistinctKeys;
    if DistinctKeys(rows, key) {
      forall limit: nat | limit >= 1 ensures Collect(rows, key, lt, limit, None) == rows {
        PagingTheorem(rows, key, lt, limit);
      }
    } else {
      var i := TiesAreAdjacent(rows, key, lt);
      PagingTheorem(rows, key, lt, i + 1);
      assert !CleanCuts(rows, key, i + 1);
      assert Collect(rows, key, lt, i + 1, None) != rows;
    }
  }

  // ---- Sorting ---------------------------------------------------------------

  // A stable sort, as the library's: an inserted row goes behind the rows it ties with.
  function InsertRow<R, K>(s: seq<R>, x: R, key: R -> K, lt: (K, K) -> bool): seq<R> {
    if s == [] || !lt(key(x), key(s[|s| - 1])) then s + [x]
    else InsertRow(s[..|s| - 1], x, key, lt) + [s[|s| - 1]]
  }

  function StableSort<R, K>(s: seq<R>, key: R -> K, lt: (K, K) -> bool): seq<R> {
    if s == [] then [] else InsertRow(StableSort(s[..|s| - 1], key, lt), s[|s| - 1], key, lt)
  }

  lemma {:induction false} InsertRowRows<R, K>(s: seq<R>, x: R, key: R -> K, lt: (K, K) -> bool)
    ensures multiset(InsertRow(s, x, key, lt)) == multiset(s) + multiset{x}
  {
    if s != [] {
      assert s == s[..|s| - 1] + [s[|s| - 1]];
      InsertRowRows(s[..|s| - 1], x, key, lt);
    }
  }

  lemma SortedSnoc<R, K(!new)>(s: seq<R>, x: R, key: R -> K, lt: (K, K) -> bool)
    requires SortedBy(s, key, lt)
    requires forall r :: r in multiset(s) ==> !lt(key(x), key(r))
    ensures SortedBy(s + [x], key, lt)
  {
    forall i | 0 <= i < |s| ensures !lt(key(x), key(s[i])) {
      assert s[i] in multiset(s);
    }
  }

  lemma NoneAboveLast<R, K(!new)>(s: seq<R>, x: R, key: R -> K, lt: (K, K) -> bool)
    requires StrictOrder(lt) && SortedBy(s, key, lt)
    requires s != [] && !lt(key(x), key(s[|s| - 1]))
    ensures forall r :: r in multiset(s) ==> !lt(key(x), key(r))
  {
    forall r | r in multiset(s) ensures !lt(key(x), key(r)) {
      var j :| 0 <= j < |s| && s[j] == r;
      assert j == |s| - 1 || !lt(key(s[|s| - 1]), key(s[j]));
    }
  }

  lemma {:induction false} InsertRowMeans<R, K(!new)>(s: seq<R>, x: R, key: R -> K, lt: (K, K) -> bool)
    requires StrictOrder(lt) && SortedBy(s, key, lt)
    ensures SortedBy(InsertRow(s, x, key, lt), key, lt)
  {
    if s != [] {
      var n := |s| - 1;
      if lt(key(x), key(s[n])) {
        var front := InsertRow(s[..n], x, key, lt);
        InsertRowMeans(s[..n], x, key, lt);
        InsertRowRows(s[..n], x, key, lt);
        NoneAboveLast(s, s[n], key, lt);
        assert s == s[..n] + [s[n]];
        assert forall r :: r in multiset(front) ==> r == x || r in multiset(s);
        SortedSnoc(front, s[n], key, lt);
      } else {
        NoneAboveLast(s, x, key, lt);
        SortedSnoc(s, x, key, lt);
      }
    }
  }

  // Sorting orders the rows and loses, adds or repeats none.
  lemma {:induction false} StableSortMeans<R, K(!new)>(s: seq<R>, key: R -> K, lt: (K, K) -> bool)
    requires StrictOrder(lt)
    ensures SortedBy(StableSort(s, key, lt), key, lt)
    ensures multiset(StableSort(s, key, lt)) == multiset(s)
  {
    if s != [] {
      var n := |s| - 1;
      assert s == s[..n] + [s[n]];
      StableSortMeans(s[..n], key, lt);
      InsertRowMeans(StableSort(s[..n], key, lt), s[n], key, lt);
      InsertRowRows(StableSort(s[..n], key, lt), s[n], key, lt);
    }
  }

  // A sorted list is left as it is.
  lemma {:induction false} StableSortSorted<R, K(!new)>(s: seq<R>, key: R -> K, lt: (K, K) -> bool)
    requires StrictOrder(lt) && SortedBy(s, key, lt)
    ensures StableSort(s, key, lt) == s
  {
    if s != [] {
      var n := |s| - 1;
      StableSortSorted(s[..n], key, lt);
      assert s == s[..n] + [s[n]];
    }
  }

  lemma LastOfSorted<R, K(!new)>(s: seq<R>, t: seq<R>, key: R -> K, lt: (K, K) -> bool)
    requires StrictOrder(lt) && SortedBy(s, key, lt) && SortedBy(t, key, lt)
    requires DistinctKeys(s, key) && s != [] && t != []
    requires s[|s| - 1] in t && t[|t| - 1] in s
    ensures s[|s| - 1] == t[|t| - 1]
  {
    var i :| 0 <= i < |t| && t[i] == s[|s| - 1];
    var j :| 0 <= j < |s| && s[j] == t[|t| - 1];
  }

  lemma SameFront<R>(s: seq<R>, t: seq<R>)
    requires s != [] && multiset(s) == multiset(t)
    ensures t != [] && s[|s| - 1] in t && t[|t| - 1] in s
    ensures s[|s| - 1] == t[|t| - 1] ==> multiset(s[..|s| - 1]) == multiset(t[..|t| - 1])
  {
    assert |multiset(s)| == |multiset(t)|;
    assert s[|s| - 1] in multiset(t);
    assert t[|t| - 1] in multiset(s);
    WithoutLast(s);
    WithoutLast(t);
  }

  lemma WithoutLast<R>(s: seq<R>)
    requires s != []
    ensures multiset(s[..|s| - 1]) == multiset(s) - multiset{s[|s| - 1]}
  {
    assert s == s[..|s| - 1] + [s[|s| - 1]];
  }

  // With distinct keys the sorted list is determined by its rows.
  lemma {:induction false} SortedUnique<R, K(!new)>(s: seq<R>, t: seq<R>, key: R -> K, lt: (K, K) -> bool)
    requires StrictOrder(lt) && SortedBy(s, key, lt) && SortedBy(t, key, lt)
    requires DistinctKeys(s, key) && multiset(s) == multiset(t)
    ensures s == t
  {
    if s == [] {
      assert |multiset(s)| == |multiset(t)|;
    } else {
      SameFront(s, t);
      LastOfSorted(s, t, key, lt);
      SortedUnique(s[..|s| - 1], t[..|t| - 1], key, lt);
      assert s == s[..|s| - 1] + [s[|s| - 1]] && t == t[..|t| - 1] + [t[|t| - 1]];
    }
  }

  // ---- Reading backwards -----------------------------------------------------

  function Reverse<R>(s: seq<R>): (r: seq<R>)
    ensures |r| == |s|
  {
    if s == [] then [] else Reverse(s[1..]) + [s[0]]
  }

  function HasKey<R, K(==)>(key: R -> K, c: K): R -> bool {
    r => key(r) == c
  }

  lemma {:induction false} InsertRowStable<R, K(!new)>(s: seq<R>, x: R, key: R -> K, lt: (K, K) -> bool, c: K)
    requires StrictOrder(lt)
    ensures Filter(InsertRow(s, x, key, lt), HasKey(key, c)) == Filter(s + [x], HasKey(key, c))
  {
    hide Filter;
    var p := HasKey(key, c);
    if s != [] && lt(key(x), key(s[|s| - 1])) {
      var n := |s| - 1;
      var front, last := s[..n], s[n];
      InsertRowStable(front, x, key, lt, c);
      FilterConcat(InsertRow(front, x, key, lt), [last], p);
      FilterConcat(front, [x], p);
      FilterConcat(front + [last], [x], p);
      FilterConcat(front, [last], p);
      FilterOne(x, p);
      FilterOne(last, p);
      assert s == front + [last];
      SwapEmpty(Filter(front, p), Filter([x], p), Filter([last], p));
    }
  }

  lemma SwapEmpty<R>(a: seq<R>, b: seq<R>, c: seq<R>)
    requires b == [] || c == []
    ensures (a + b) + c == (a + c) + b
  {}

  // Rows with one key stay in their order.
  lemma {:induction false} StableSortStable<R, K(!new)>(s: seq<R>, key: R -> K, lt: (K, K) -> bool, c: K)
    requires StrictOrder(lt)
    ensures Filter(StableSort(s, key, lt), HasKey(key, c)) == Filter(s, HasKey(key, c))
  {
    if s != [] {
      var n := |s| - 1;
      StableSortStable(s[..n], key, lt, c);
      InsertRowStable(StableSort(s[..n], key, lt), s[n], key, lt, c);
      FilterConcat(StableSort(s[..n], key, lt), [s[n]], HasKey(key, c));
      FilterConcat(s[..n], [s[n]], HasKey(key, c));
      assert s == s[..n] + [s[n]];
    }
  }

  lemma {:induction false} ReverseMeans<R>(s: seq<R>)
    ensures forall i :: 0 <= i < |s| ==> Reverse(s)[i] == s[|s| - 1 - i]
    ensures multiset(Reverse(s)) == multiset(s)
  {
    if s != [] {
      ReverseMeans(s[1..]);
      assert s == [s[0]] + s[1..];
    }
  }

  lemma {:induction false} FilterReverse<T>(s: seq<T>, p: T -> bool)
    ensures Filter(Reverse(s), p) == Reverse(Filter(s, p))
  {
    if s != [] {
      FilterReverse(s[1..], p);
      FilterConcat(Reverse(s[1..]), [s[0]], p);
      FilterConcat([s[0]], s[1..], p);
      assert s == [s[0]] + s[1..];
      assert Filter([s[0]], p) == if p(s[0]) then [s[0]] else [];
      if p(s[0]) {
        assert ([s[0]] + Filter(s[1..], p))[1..] == Filter(s[1..], p);
      } else {
        assert Filter(s, p) == Filter(s[1..], p);
        assert Filter(Reverse(s), p) == Filter(Reverse(s[1..]), p);
      }
    }
  }

  function Flip<K>(lt: (K, K) -> bool): (K, K) -> bool {
    (a, b) => lt(b, a)
  }

  lemma ReverseSorted<R, K(!new)>(s: seq<R>, key: R -> K, lt: (K, K) -> bool)
    requires SortedBy(s, key, lt) && DistinctKeys(s, key)
    ensures SortedBy(Reverse(s), key, Flip(lt)) && DistinctKeys(Reverse(s), key)
  {
    ReverseMeans(s);
  }

  // Sorting a listing the other way round reverses it exactly when no two rows tie.
  lemma DescendingIsReversal<R, K(!new)>(s: seq<R>, key: R -> K, lt: (K, K) -> bool)
    requires StrictOrder(lt) && SortedBy(s, key, lt)
    requires NoRepeats(s)
    ensures StableSort(s, key, Flip(lt)) == Reverse(s) <==> DistinctKeys(s, key)
  {
    hide StableSort, Reverse, Filter;
    FlipOrder(lt);
    if DistinctKeys(s, key) {
      StableSortMeans(s, key, Flip(lt));
      ReverseMeans(s);
      ReverseSorted(s, key, lt);
      SortedUnique(Reverse(s), StableSort(s, key, Flip(lt)), key, Flip(lt));
    } else {
      var i, j :| 0 <= i < j < |s| && key(s[i]) == key(s[j]);
      StableSortStable(s, key, Flip(lt), key(s[i]));
      FilterReverse(s, HasKey(key, key(s[i])));
      TiesDoNotReverse(s, HasKey(key, key(s[i])), i, j);
    }
  }

  lemma FlipOrder<K(!new)>(lt: (K, K) -> bool)
    requires StrictOrder(lt)
    ensures StrictOrder(Flip(lt))
  {}

  lemma {:induction false} FilterCounts<R>(s: seq<R>, p: R -> bool, i: nat)
    requires i < |s| && p(s[i])
    ensures |Filter(s, p)| >= 1
    ensures forall j :: 0 <= j < i && p(s[j]) ==> |Filter(s, p)| >= 2
  {
    var n := |s| - 1;
    if i < n {
      FilterCounts(s[..n], p, i);
    } else {
      forall j | 0 <= j < i && p(s[j]) ensures |Filter(s[..n], p)| >= 1 {
        FilterCounts(s[..n], p, j);
      }
    }
  }

  lemma TiesDoNotReverse<R>(s: seq<R>, p: R -> bool, i: nat, j: nat)
    requires i < j < |s| && p(s[i]) && p(s[j])
    requires NoRepeats(s)
    ensures Filter(s, p) != Reverse(Filter(s, p))
  {
    var f := Filter(s, p);
    FilterCounts(s, p, j);
    FilterNoRepeats(s, p);
    ReverseMeans(f);
    assert f[0] != f[|f| - 1];
  }

  // Distinctness of keys does not depend on the order of the rows.
  lemma {:induction false} DistinctKeysOfPermutation<R, K>(s: seq<R>, t: seq<R>, key: R -> K)
    requires multiset(s) == multiset(t) && DistinctKeys(s, key)
    ensures DistinctKeys(t, key)
  {
    forall i, j | 0 <= i < j < |t| ensures key(t[i]) != key(t[j]) {
      if key(t[i]) == key(t[j]) {
        assert t[i] in multiset(t) && t[j] in multiset(t);
        var i' :| 0 <= i' < |s| && s[i'] == t[i];
        var j' :| 0 <= j' < |s| && s[j'] == t[j];
        assert i' == j';
        CountTwice(t, i, j);
        CountOnce(s, key, i');
        assert false;
      }
    }
  }

  lemma CountTwice<R>(t: seq<R>, i: nat, j: nat)
    requires i < j < |t| && t[i] == t[j]
    ensures multiset(t)[t[i]] >= 2
  {
    var a, b, c := t[..i + 1], t[i + 1..j + 1], t[j + 1..];
    assert t == a + b + c;
    assert a[i] == t[i] && b[j - i - 1] == t[j];
    assert t[i] in multiset(a) && t[i] in multiset(b);
  }

  lemma {:induction false} CountOnce<R, K>(s: seq<R>, key: R -> K, i: nat)
    requires DistinctKeys(s, key) && i < |s|
    ensures multiset(s)[s[i]] == 1
  {
    var a, b := s[..i], s[i + 1..];
    assert s == a + [s[i]] + b;
    assert s[i] !in a && s[i] !in b;
  }

  lemma SameDistinctKeys<R, K>(s: seq<R>, t: seq<R>, key: R -> K)
    requires multiset(s) == multiset(t)
    ensures DistinctKeys(s, key) <==> DistinctKeys(t, key)
  {
    if DistinctKeys(s, key) {
      DistinctKeysOfPermutation(s, t, key);
    }
    if DistinctKeys(t, key) {
      DistinctKeysOfPermutation(t, s, key);
    }
  }
}
