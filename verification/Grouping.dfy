/** Swap detection: one pass over the hashlock index, grouping records that share a lock. */
module Grouping {
  import opened ByteStrings
  import opened Records
  import opened Keys
  import opened Database
  import opened Seqs
  import opened Paging
  import opened Queries

  // ---- The groups of a sorted key list ---------------------------------------

  ghost predicate AllHashlockKeys(ks: seq<Bytes>) {
    forall i :: 0 <= i < |ks| ==> |ks[i]| == 68
  }

  function Head(k: Bytes): Bytes {
    if |k| < 32 then k else k[..32]
  }

  function Tail(k: Bytes): Bytes {
    if |k| < 32 then [] else k[32..]
  }

  // The distinct heads, in order.
  function Heads(ks: seq<Bytes>): seq<Bytes> {
    if ks == [] then []
    else
      var n := |ks| - 1;
      if n > 0 && Head(ks[n - 1]) == Head(ks[n]) then Heads(ks[..n]) else Heads(ks[..n]) + [Head(ks[n])]
  }

  // The tails behind one head, in order.
  function Members(ks: seq<Bytes>, h: Bytes): seq<Bytes> {
    if ks == [] then []
    else
      var n := |ks| - 1;
      Members(ks[..n], h) + if Head(ks[n]) == h then [Tail(ks[n])] else []
  }

  function Shared(ks: seq<Bytes>): Bytes -> bool {
    h => |Members(ks, h)| > 1
  }

  datatype Group = Group(head: Bytes, members: seq<Bytes>)

  function GroupsAt(ks: seq<Bytes>, hs: seq<Bytes>): seq<Group> {
    seq(|hs|, i requires 0 <= i < |hs| => Group(hs[i], Members(ks, hs[i])))
  }

  // How many of the shared heads come back. A limit of zero still returns the first of
  // them, unless it is the last head of the scan.
  function Returned(shared: seq<Bytes>, heads: seq<Bytes>, limit: nat): (n: nat)
    ensures n <= |shared|
  {
    if limit >= 1 then (if |shared| <= limit then |shared| else limit)
    else if shared != [] && heads != [] && shared[0] != heads[|heads| - 1] then 1
    else 0
  }

  // ---- Sorted keys come in runs ----------------------------------------------

  lemma HeadsAscend(a: Bytes, b: Bytes)
    requires |a| == |b| == 68 && LexLt(a, b)
    ensures Head(a) == Head(b) || LexLt(Head(a), Head(b))
  {
    assert a == Head(a) + Tail(a) && b == Head(b) + Tail(b);
    LexConcat(Head(a), Tail(a), Head(b), Tail(b));
  }

  lemma {:induction false} HeadsAre(ks: seq<Bytes>, h: Bytes)
    ensures h in Heads(ks) <==> exists i :: 0 <= i < |ks| && Head(ks[i]) == h
  {
    if ks != [] {
      var n := |ks| - 1;
      HeadsAre(ks[..n], h);
      if h in Heads(ks[..n]) {
        var i :| 0 <= i < n && Head(ks[..n][i]) == h;
        assert Head(ks[i]) == h;
      }
      if i :| 0 <= i < n && Head(ks[i]) == h {
        assert Head(ks[..n][i]) == h;
      }
    }
  }

  lemma {:induction false} HeadsEnd(ks: seq<Bytes>)
    ensures ks != [] <==> Heads(ks) != []
    ensures ks != [] ==> Heads(ks)[|Heads(ks)| - 1] == Head(ks[|ks| - 1])
  {
    if ks != [] {
      HeadsEnd(ks[..|ks| - 1]);
    }
  }

  lemma SortedSnocKey(hs: seq<Bytes>, h: Bytes)
    requires Sorted(hs) && (hs == [] || LexLt(hs[|hs| - 1], h))
    ensures Sorted(hs + [h])
  {
    forall i | 0 <= i < |hs| ensures LexLt(hs[i], h) {
      if i < |hs| - 1 {
        LexTransitive(hs[i], hs[|hs| - 1], h);
      }
    }
  }

  // The heads of sorted keys are ascending, each once.
  lemma {:induction false} HeadsSorted(ks: seq<Bytes>)
    requires Sorted(ks) && AllHashlockKeys(ks)
    ensures Sorted(Heads(ks))
  {
    hide Head;
    if ks != [] {
      var n := |ks| - 1;
      HeadsSorted(ks[..n]);
      HeadsEnd(ks[..n]);
      if n > 0 {
        HeadsAscend(ks[n - 1], ks[n]);
      }
      if n == 0 || Head(ks[n - 1]) != Head(ks[n]) {
        SortedSnocKey(Heads(ks[..n]), Head(ks[n]));
      }
    }
  }

  // Once a later head has been read, an earlier group is complete.
  lemma {:induction false} ClosedGroup(ks: seq<Bytes>, i: nat, h: Bytes)
    requires Sorted(ks) && AllHashlockKeys(ks) && 0 < i <= |ks|
    requires LexLt(h, Head(ks[i - 1]))
    ensures Members(ks, h) == Members(ks[..i], h)
    decreases |ks| - i
  {
    if i == |ks| {
      assert ks[..i] == ks;
    } else {
      HeadsAscend(ks[i - 1], ks[i]);
      if Head(ks[i - 1]) != Head(ks[i]) {
        LexTransitive(h, Head(ks[i - 1]), Head(ks[i]));
      }
      LexIrreflexive(h);
      ClosedGroup(ks, i + 1, h);
      assert ks[..i + 1][..i] == ks[..i];
    }
  }

  // A new head starts with its first key only.
  lemma {:induction false} FreshHead(ks: seq<Bytes>, h: Bytes)
    requires forall i :: 0 <= i < |ks| ==> Head(ks[i]) != h
    ensures Members(ks, h) == []
  {
    if ks != [] {
      FreshHead(ks[..|ks| - 1], h);
    }
  }

  // ---- The streaming pass -----------------------------------------------------

  // What the pass has flushed after `i` keys: the shared heads below the current one.
  ghost function Flushed(ks: seq<Bytes>, i: nat): seq<Bytes>
    requires i <= |ks|
  {
    var hs := Heads(ks[..i]);
    if hs == [] then [] else Filter(hs[..|hs| - 1], Shared(ks))
  }

  function WithShared(flushed: seq<Bytes>, h: Bytes, members: seq<Bytes>): seq<Bytes> {
    if |members| > 1 then flushed + [h] else flushed
  }

  lemma SameHead(ks: seq<Bytes>, i: nat)
    requires 0 < i < |ks| && Head(ks[i - 1]) == Head(ks[i])
    ensures Members(ks[..i + 1], Head(ks[i])) == Members(ks[..i], Head(ks[i])) + [Tail(ks[i])]
    ensures Flushed(ks, i + 1) == Flushed(ks, i)
  {
    assert ks[..i + 1][..i] == ks[..i];
  }

  // A head that differs from the one before it has not occurred yet.
  lemma HeadIsNew(ks: seq<Bytes>, i: nat)
    requires Sorted(ks) && AllHashlockKeys(ks) && i < |ks|
    requires i > 0 ==> Head(ks[i - 1]) != Head(ks[i])
    ensures Heads(ks[..i + 1]) == Heads(ks[..i]) + [Head(ks[i])]
    ensures Head(ks[i]) !in Heads(ks[..i])
  {
    assert ks[..i + 1][..i] == ks[..i];
    var hs := Heads(ks[..i]);
    HeadsSorted(ks[..i + 1]);
    if h :| h in hs && h == Head(ks[i]) {
      var l :| 0 <= l < |hs| && hs[l] == h;
      SortedDistinct(Heads(ks[..i + 1]), l, |hs|);
    }
  }

  // So its group starts with this key.
  lemma GroupStarts(ks: seq<Bytes>, i: nat)
    requires Sorted(ks) && AllHashlockKeys(ks) && i < |ks|
    requires i > 0 ==> Head(ks[i - 1]) != Head(ks[i])
    ensures Members(ks[..i + 1], Head(ks[i])) == [Tail(ks[i])]
  {
    assert ks[..i + 1][..i] == ks[..i];
    HeadIsNew(ks, i);
    forall j | 0 <= j < i ensures Head(ks[..i][j]) != Head(ks[i]) {
      HeadsAre(ks[..i], Head(ks[i]));
    }
    FreshHead(ks[..i], Head(ks[i]));
  }

  // And the group before it is closed.
  lemma GroupCloses(ks: seq<Bytes>, i: nat)
    requires Sorted(ks) && AllHashlockKeys(ks) && 0 < i < |ks|
    requires Head(ks[i - 1]) != Head(ks[i])
    ensures Members(ks, Head(ks[i - 1])) == Members(ks[..i], Head(ks[i - 1]))
  {
    assert ks[..i + 1][..i] == ks[..i];
    HeadsAscend(ks[i - 1], ks[i]);
    ClosedGroup(ks, i + 1, Head(ks[i - 1]));
  }

  lemma HeadFlushes(ks: seq<Bytes>, i: nat)
    requires Sorted(ks) && AllHashlockKeys(ks) && 0 < i < |ks|
    requires Head(ks[i - 1]) != Head(ks[i])
    requires Members(ks, Head(ks[i - 1])) == Members(ks[..i], Head(ks[i - 1]))
    ensures Flushed(ks, i + 1) == WithShared(Flushed(ks, i), Head(ks[i - 1]), Members(ks[..i], Head(ks[i - 1])))
  {
    hide Heads, Members, Head, Filter, Sorted, AllHashlockKeys;
    var hs := Heads(ks[..i]);
    HeadIsNew(ks, i);
    HeadsEnd(ks[..i]);
    assert Heads(ks[..i + 1])[..|hs|] == hs;
    assert hs[..|hs|] == hs;
    FilterSnoc(hs, Shared(ks), |hs| - 1);
  }

  lemma FirstHead(ks: seq<Bytes>)
    requires Sorted(ks) && AllHashlockKeys(ks) && ks != []
    ensures Flushed(ks, 1) == []
  {
    HeadIsNew(ks, 0);
    hide Head, Sorted, AllHashlockKeys;
    assert ks[..0] == [];
    assert Heads(ks[..1])[..0] == [];
  }

  lemma NewHead(ks: seq<Bytes>, i: nat)
    requires Sorted(ks) && AllHashlockKeys(ks) && i < |ks|
    requires i > 0 ==> Head(ks[i - 1]) != Head(ks[i])
    ensures Members(ks[..i + 1], Head(ks[i])) == [Tail(ks[i])]
    ensures i == 0 ==> Flushed(ks, i + 1) == []
    ensures i > 0 ==> Members(ks, Head(ks[i - 1])) == Members(ks[..i], Head(ks[i - 1]))
    ensures i > 0 ==> Flushed(ks, i + 1) == WithShared(Flushed(ks, i), Head(ks[i - 1]), Members(ks[..i], Head(ks[i - 1])))
  {
    hide Heads, Members, Head, Tail, Filter, Sorted, AllHashlockKeys, Flushed, WithShared;
    GroupStarts(ks, i);
    if i > 0 {
      GroupCloses(ks, i);
      HeadFlushes(ks, i);
    } else {
      FirstHead(ks);
    }
  }

  lemma {:induction false} HeadsPrefix(ks: seq<Bytes>, i: nat)
    requires i <= |ks|
    ensures |Heads(ks[..i])| <= |Heads(ks)| && Heads(ks)[..|Heads(ks[..i])|] == Heads(ks[..i])
    decreases |ks|
  {
    if i < |ks| {
      HeadsPrefix(ks[..|ks| - 1], i);
      assert ks[..|ks| - 1][..i] == ks[..i];
    } else {
      assert ks[..i] == ks;
    }
  }

  lemma FlushedPrefix(ks: seq<Bytes>, i: nat)
    requires i <= |ks|
    ensures var shared := Filter(Heads(ks), Shared(ks));
            |Flushed(ks, i)| <= |shared| && shared[..|Flushed(ks, i)|] == Flushed(ks, i)
  {
    hide Filter, Heads, Shared;
    var hs := Heads(ks[..i]);
    HeadsPrefix(ks, i);
    if hs != [] {
      var closed := hs[..|hs| - 1];
      var rest := Heads(ks)[|closed|..];
      assert Heads(ks) == closed + rest;
      FilterConcat(closed, rest, Shared(ks));
    }
  }

  // Stopping early: what was flushed is the whole answer.
  lemma StoppedEarly(ks: seq<Bytes>, i: nat, limit: nat)
    requires Sorted(ks) && AllHashlockKeys(ks) && i < |ks|
    requires |Flushed(ks, i + 1)| == if limit == 0 then 1 else limit
    ensures var shared := Filter(Heads(ks), Shared(ks));
            Flushed(ks, i + 1) == shared[..Returned(shared, Heads(ks), limit)]
  {
    hide Heads, Members;
    var shared, heads := Filter(Heads(ks), Shared(ks)), Heads(ks);
    FlushedPrefix(ks, i + 1);
    HeadsPrefix(ks, i + 1);
    HeadsSorted(ks);
    if limit == 0 {
      var closed := Heads(ks[..i + 1])[..|Heads(ks[..i + 1])| - 1];
      FilterIn(closed, Shared(ks), shared[0]);
      var l :| 0 <= l < |closed| && closed[l] == shared[0];
      assert heads[l] == shared[0];
      LexIrreflexive(shared[0]);
    }
  }

  // Reaching the end: the last group is still open.
  lemma ReachedEnd(ks: seq<Bytes>)
    requires Sorted(ks) && AllHashlockKeys(ks) && ks != []
    ensures var shared := Filter(Heads(ks), Shared(ks));
            var last := Head(ks[|ks| - 1]);
            shared == WithShared(Flushed(ks, |ks|), last, Members(ks, last))
    ensures Heads(ks) != [] && Heads(ks)[|Heads(ks)| - 1] == Head(ks[|ks| - 1])
  {
    hide Heads, Members, Head, Filter, Sorted, AllHashlockKeys;
    HeadsEnd(ks);
    assert ks[..|ks|] == ks;
    var heads := Heads(ks);
    assert heads[..|heads|] == heads;
    FilterSnoc(heads, Shared(ks), |heads| - 1);
  }

  lemma GroupsSnoc(ks: seq<Bytes>, hs: seq<Bytes>, h: Bytes)
    ensures GroupsAt(ks, hs + [h]) == GroupsAt(ks, hs) + [Group(h, Members(ks, h))]
  {}

  method GroupKeys(ks: seq<Bytes>, limit: nat) returns (groups: seq<Group>)
    requires Sorted(ks) && AllHashlockKeys(ks)
    ensures var shared := Filter(Heads(ks), Shared(ks));
            groups == GroupsAt(ks, shared[..Returned(shared, Heads(ks), limit)])
  {
    hide Heads, Members, Filter, Flushed, GroupsAt;
    var current: Option<Group> := None;
    groups := [];
    var i := 0;
    NothingFlushed(ks);
    while i < |ks|
      invariant 0 <= i <= |ks|
      invariant i == 0 ==> current.None? && groups == []
      invariant i > 0 ==> current == Some(Group(Head(ks[i - 1]), Members(ks[..i], Head(ks[i - 1]))))
      invariant groups == GroupsAt(ks, Flushed(ks, i)) && |groups| == |Flushed(ks, i)|
      invariant groups == [] || |groups| < limit
    {
      var hl, pk := ks[i][..32], ks[i][32..];
      if current.Some? && current.value.head == hl {
        SameHead(ks, i);
        current := Some(Group(hl, current.value.members + [pk]));
      } else {
        NewHead(ks, i);
        if current.Some? {
          if |current.value.members| > 1 {
            GroupsSnoc(ks, Flushed(ks, i), current.value.head);
            groups := groups + [current.value];
            if |groups| >= limit {
              StoppedEarly(ks, i, limit);
              return;
            }
          }
        }
        current := Some(Group(hl, [pk]));
      }
      i := i + 1;
    }
    assert ks[..|ks|] == ks;
    if current.Some? {
      ReachedEnd(ks);
      if |current.value.members| > 1 && |groups| < limit {
        GroupsSnoc(ks, Flushed(ks, |ks|), current.value.head);
        groups := groups + [current.value];
      }
    } else {
      NoHeads(ks);
    }
    ghost var shared := Filter(Heads(ks), Shared(ks));
    assert shared[..|shared|] == shared && shared[..0] == [];
  }

  lemma NothingFlushed(ks: seq<Bytes>)
    ensures Flushed(ks, 0) == [] && GroupsAt(ks, []) == []
  {}

  lemma NoHeads(ks: seq<Bytes>)
    requires ks == []
    ensures Filter(Heads(ks), Shared(ks)) == []
  {}

  // ---- The query ---------------------------------------------------------------

  datatype SharedHashlockGroup = SharedHashlockGroup(hashLock: Bytes, htlcs: seq<HtlcRecord>)

  // The hashlocks of the records, or the one asked for if any record has it.
  ghost function LocksHeld(m: map<Bytes, HtlcRecord>, only: Option<Hash>): set<Bytes> {
    set k | k in m && (only.None? || m[k].params.hashLock == only.value) :: m[k].params.hashLock
  }

  ghost function HeldTwice(m: map<Bytes, HtlcRecord>): Bytes -> bool {
    h => |FullScan(m, HasHashlock(h))| > 1
  }

  // The hashlocks held by at least two records, in byte order.
  ghost function SharedLocks(m: map<Bytes, HtlcRecord>, only: Option<Hash>): seq<Bytes> {
    Filter(Ascending(LocksHeld(m, only)), HeldTwice(m))
  }

  // The keys the scan reads.
  ghost function ScannedKeys(m: map<Bytes, HtlcRecord>, only: Option<Hash>): seq<Bytes> {
    Ascending(KeysWithPrefix(Index(m, RecordHashlockKey), if only.Some? then only.value else []))
  }

  lemma ScannedShape(m: map<Bytes, HtlcRecord>, only: Option<Hash>)
    ensures AllHashlockKeys(ScannedKeys(m, only)) && Sorted(ScannedKeys(m, only))
  {
    var ks := ScannedKeys(m, only);
    forall i | 0 <= i < |ks| ensures |ks[i]| == 68 {
      assert ks[i] in ks;
    }
  }

  function HasHead(h: Bytes): Bytes -> bool {
    k => Head(k) == h
  }

  lemma DropFrontSnoc(ks: seq<Bytes>, k: Bytes, n: nat)
    requires |k| >= n && forall x :: x in ks ==> |x| >= n
    ensures DropFront(ks + [k], n) == DropFront(ks, n) + [k[n..]]
  {}

  lemma {:induction false} MembersAreTails(ks: seq<Bytes>, h: Bytes)
    requires AllHashlockKeys(ks)
    ensures var f := Filter(ks, HasHead(h));
            && (forall k :: k in f ==> |k| >= 32)
            && Members(ks, h) == DropFront(f, 32)
  {
    hide DropFront, Filter;
    if ks == [] {
      NoTailsLeft(h);
    } else {
      var n := |ks| - 1;
      MembersAreTails(ks[..n], h);
      assert ks[..|ks|] == ks;
      FilterSnoc(ks, HasHead(h), |ks| - 1);
      if Head(ks[n]) == h {
        DropFrontSnoc(Filter(ks[..n], HasHead(h)), ks[n], 32);
      }
    }
  }

  lemma NoTailsLeft(h: Bytes)
    ensures Filter([], HasHead(h)) == [] && DropFront([], 32) == []
  {}

  // A group read from the index is the full scan for its hashlock.
  lemma MembersAreHolders(m: map<Bytes, HtlcRecord>, only: Option<Hash>, h: Hash)
    requires forall k :: k in m ==> k == HtlcKey(m[k])
    requires only.None? || only.value == h
    ensures RowsOf(m, Members(ScannedKeys(m, only), h)) == FullScan(m, HasHashlock(h))
    ensures Members(ScannedKeys(m, only), h) == Ascending(KeysHolding(m, HasHashlock(h)))
  {
    hide Ascending, Filter, Members, DropFront, FullScan, RowsOf, HashlockKey, HtlcKey, KeysHolding, Index;
    IndexShape(m);
    var index := Index(m, RecordHashlockKey);
    var p := if only.Some? then only.value else [];
    var ks := ScannedKeys(m, only);
    ScannedShape(m, only);
    MembersAreTails(ks, h);
    FilterAscending(KeysWithPrefix(index, p), HasHead(h));
    assert forall q :: q in index ==> (Head(q) == h <==> h <= q);
    assert (set q | q in KeysWithPrefix(index, p) && HasHead(h)(q)) == KeysWithPrefix(index, h);
    HashlockTails(m, h);
    FullScanRows(m, HasHashlock(h));
  }

  lemma HeadsAreLocks(m: map<Bytes, HtlcRecord>, only: Option<Hash>)
    ensures Heads(ScannedKeys(m, only)) == Ascending(LocksHeld(m, only))
  {
    hide Heads, Ascending, HashlockKey;
    var ks := ScannedKeys(m, only);
    ScannedShape(m, only);
    HeadsSorted(ks);
    forall h ensures h in Heads(ks) <==> h in LocksHeld(m, only) {
      HeadsAre(ks, h);
      if i :| 0 <= i < |ks| && Head(ks[i]) == h {
        assert ks[i] in ks;
      }
      if k :| k in m && (only.None? || m[k].params.hashLock == only.value) && m[k].params.hashLock == h {
        var q := RecordHashlockKey(m[k]);
        assert q in ks && Head(q) == h;
      }
    }
    AscendingUnique(Heads(ks), Ascending(LocksHeld(m, only)));
  }

  lemma {:induction false} FilterSame<T>(s: seq<T>, p: T -> bool, q: T -> bool)
    requires forall x :: x in s ==> p(x) == q(x)
    ensures Filter(s, p) == Filter(s, q)
  {
    if s != [] {
      FilterSame(s[..|s| - 1], p, q);
    }
  }

  lemma SharedHeadsAreLocks(m: map<Bytes, HtlcRecord>, only: Option<Hash>)
    requires forall k :: k in m ==> k == HtlcKey(m[k])
    ensures var ks := ScannedKeys(m, only);
            Filter(Heads(ks), Shared(ks)) == SharedLocks(m, only)
  {
    hide Heads, Ascending, Filter, Members, FullScan, ScannedKeys;
    var ks := ScannedKeys(m, only);
    HeadsAreLocks(m, only);
    forall h | h in Heads(ks) ensures Shared(ks)(h) == HeldTwice(m)(h) {
      MembersAreHolders(m, only, h);
      var scan := FullScanMeans(m, HasHashlock(h));
      AscendingUnique(scan, Ascending(KeysHolding(m, HasHashlock(h))));
    }
    FilterSame(Heads(ks), Shared(ks), HeldTwice(m));
  }

  // Swap detection returns the first shared hashlocks in byte order, each with all the
  // records that hold it. (A limit of zero is the exception `Returned` describes.)
  method FindSharedHashlockGroups(db: Db, only: Option<Hash>, limit: nat) returns (out: seq<SharedHashlockGroup>)
    requires db.Valid()
    ensures var locks := SharedLocks(db.htlcFull, only);
            && |out| == Returned(locks, Ascending(LocksHeld(db.htlcFull, only)), limit)
            && (limit >= 1 ==> |out| <= limit && (|out| < limit ==> |out| == |locks|))
            && forall i :: 0 <= i < |out| ==>
                 out[i] == SharedHashlockGroup(locks[i], FullScan(db.htlcFull, HasHashlock(locks[i])))
  {
    hide Ascending, Filter, Members, Heads, FullScan, KeysBetween, KeysWithPrefix, Index, LocksHeld;
    var m := db.htlcFull;
    var p: Bytes := if only.Some? then only.value else [];
    var n := 68 - |p|;
    PrefixKeys(db.htlcByHashlock, p, n) by { IndexShape(m); }
    var ks := Scan(db.htlcByHashlock, p + Fill(0, n), p + Fill(0xFF, n));
    ScannedShape(m, only);
    SharedHeadsAreLocks(m, only);
    HeadsAreLocks(m, only);
    var groups := GroupKeys(ks, limit);
    ghost var locks := SharedLocks(m, only);
    out := [];
    for i := 0 to |groups|
      invariant |out| == i
      invariant forall j :: 0 <= j < i ==> out[j] == SharedHashlockGroup(locks[j], FullScan(m, HasHashlock(locks[j])))
    {
      var htlcs := ReadRows(m, groups[i].members);
      SharedLockHeld(m, only, i);
      MembersAreHolders(m, only, locks[i]);
      if |htlcs| > 1 {
        out := out + [SharedHashlockGroup(groups[i].head, htlcs)];
      }
    }
  }

  lemma IndexShape(m: map<Bytes, HtlcRecord>)
    ensures forall q :: q in Index(m, RecordHashlockKey) ==> |q| == 68
  {}

  lemma SharedLockHeld(m: map<Bytes, HtlcRecord>, only: Option<Hash>, i: nat)
    requires i < |SharedLocks(m, only)|
    ensures var h := SharedLocks(m, only)[i];
            |h| == 32 && (only.None? || only.value == h) && |FullScan(m, HasHashlock(h))| > 1
  {
    var h := SharedLocks(m, only)[i];
    FilterIn(Ascending(LocksHeld(m, only)), HeldTwice(m), h);
  }

  ghost predicate TwoHold(m: map<Bytes, HtlcRecord>, h: Hash) {
    exists k, k' :: k in m && k' in m && k != k' && m[k].params.hashLock == h && m[k'].params.hashLock == h
  }

  lemma HeldTwiceMeans(m: map<Bytes, HtlcRecord>, h: Hash)
    ensures HeldTwice(m)(h) <==> TwoHold(m, h)
  {
    hide FullScan, LexLt;
    var ks := FullScanMeans(m, HasHashlock(h));
    if |ks| > 1 {
      assert ks[0] in ks && ks[1] in ks;
      LexIrreflexive(ks[0]);
    }
    if k, k' :| k in m && k' in m && k != k' && m[k].params.hashLock == h && m[k'].params.hashLock == h {
      assert k in ks && k' in ks;
    }
  }

  // What the list of shared hashlocks is: ascending, and exactly the hashlocks asked about
  // that two different records hold.
  lemma SharedLocksMean(m: map<Bytes, HtlcRecord>, only: Option<Hash>)
    ensures Sorted(SharedLocks(m, only))
    ensures forall h: Hash :: h in SharedLocks(m, only) <==> (only.None? || only.value == h) && TwoHold(m, h)
  {
    hide Ascending, HeldTwice, Filter;
    FilterSorted(Ascending(LocksHeld(m, only)), HeldTwice(m));
    forall h: Hash ensures h in SharedLocks(m, only) <==> (only.None? || only.value == h) && TwoHold(m, h) {
      FilterIn(Ascending(LocksHeld(m, only)), HeldTwice(m), h);
      HeldTwiceMeans(m, h);
    }
  }
}
