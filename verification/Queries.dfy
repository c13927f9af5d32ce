/**
 The read side. Each query walks indexes and key slices; its contract says the
 answer is that of a plain scan of the primary rows.
 */
module Queries {
  import opened ByteStrings
  import opened Records
  import opened Keys
  import opened Database
  import opened Seqs
  import opened Paging

  // ---- Plain scans ----------------------------------------------------------

  // The rows at some keys, in their order; a key without a row is skipped.
  function RowsOf<V>(m: map<Bytes, V>, ks: seq<Bytes>): seq<V> {
    if ks == [] then []
    else RowsOf(m, ks[..|ks| - 1]) + if ks[|ks| - 1] in m then [m[ks[|ks| - 1]]] else []
  }

  // Every row of a table that satisfies a condition, in key order.
  ghost function FullScan<V>(m: map<Bytes, V>, p: V -> bool): seq<V> {
    Filter(RowsOf(m, Ascending(m.Keys)), p)
  }

  ghost function KeyHolds<V>(m: map<Bytes, V>, p: V -> bool): Bytes -> bool {
    k => k in m && p(m[k])
  }

  ghost function KeysHolding<V>(m: map<Bytes, V>, p: V -> bool): set<Bytes> {
    set k | k in m && p(m[k])
  }

  lemma RowsOfSnoc<V>(m: map<Bytes, V>, ks: seq<Bytes>, i: nat)
    requires i < |ks|
    ensures RowsOf(m, ks[..i + 1]) == RowsOf(m, ks[..i]) + if ks[i] in m then [m[ks[i]]] else []
  {
    assert ks[..i + 1][..i] == ks[..i];
  }

  lemma RowsOfPlus<V>(m: map<Bytes, V>, ks: seq<Bytes>, k: Bytes)
    ensures RowsOf(m, ks + [k]) == if k in m then RowsOf(m, ks) + [m[k]] else RowsOf(m, ks)
  {
    assert (ks + [k])[..|ks|] == ks;
  }

  lemma {:induction false} FilterRows<V>(m: map<Bytes, V>, ks: seq<Bytes>, p: V -> bool)
    ensures Filter(RowsOf(m, ks), p) == RowsOf(m, Filter(ks, KeyHolds(m, p)))
  {
    if ks != [] {
      var front, k := ks[..|ks| - 1], ks[|ks| - 1];
      FilterRows(m, front, p);
      hide Filter, RowsOf;
      assert ks == front + [k] && ks[..|ks|] == ks;
      RowsOfPlus(m, front, k);
      FilterSnoc(ks, KeyHolds(m, p), |front|);
      assert KeyHolds(m, p)(k) == (k in m && p(m[k]));
      hide KeyHolds;
      if k in m {
        var rows := RowsOf(m, front) + [m[k]];
        assert rows[..|rows|] == rows && rows[..|rows| - 1] == RowsOf(m, front) && rows[|rows| - 1] == m[k];
        FilterSnoc(rows, p, |rows| - 1);
        RowsOfPlus(m, Filter(front, KeyHolds(m, p)), k);
      }
    }
  }

  lemma FilterAscending(keys: set<Bytes>, p: Bytes -> bool)
    ensures Filter(Ascending(keys), p) == Ascending(set k | k in keys && p(k))
  {
    FilterSorted(Ascending(keys), p);
    forall k ensures k in Filter(Ascending(keys), p) <==> k in keys && p(k) {
      FilterIn(Ascending(keys), p, k);
    }
    AscendingUnique(Filter(Ascending(keys), p), Ascending(set k | k in keys && p(k)));
  }

  lemma FullScanRows<V>(m: map<Bytes, V>, p: V -> bool)
    ensures FullScan(m, p) == RowsOf(m, Ascending(KeysHolding(m, p)))
  {
    hide Filter, RowsOf, Ascending;
    FilterRows(m, Ascending(m.Keys), p);
    FilterAscending(m.Keys, KeyHolds(m, p));
    assert (set k | k in m.Keys && KeyHolds(m, p)(k)) == KeysHolding(m, p);
  }

  // Scanning a part of the keys and filtering is filtering all of them, when the part holds
  // every wanted row and the filter keeps just those.
  lemma PartialScan<V>(m: map<Bytes, V>, part: set<Bytes>, p: V -> bool, want: V -> bool)
    requires forall k :: k in m ==> (k in part && p(m[k]) <==> want(m[k]))
    ensures Filter(RowsOf(m, Ascending(part)), p) == FullScan(m, want)
  {
    hide Filter, RowsOf, Ascending;
    FilterRows(m, Ascending(part), p);
    FilterAscending(part, KeyHolds(m, p));
    FullScanRows(m, want);
    assert (set k | k in part && KeyHolds(m, p)(k)) == KeysHolding(m, want);
  }

  lemma {:induction false} RowsOfPresent<V>(m: map<Bytes, V>, ks: seq<Bytes>)
    requires forall i :: 0 <= i < |ks| ==> ks[i] in m
    ensures |RowsOf(m, ks)| == |ks|
    ensures forall i :: 0 <= i < |ks| ==> RowsOf(m, ks)[i] == m[ks[i]]
  {
    if ks != [] {
      RowsOfPresent(m, ks[..|ks| - 1]);
    }
  }

  // A full scan lists exactly the satisfying rows, one for each key, in key order.
  lemma FullScanMeans<V>(m: map<Bytes, V>, p: V -> bool) returns (ks: seq<Bytes>)
    ensures Sorted(ks) && |ks| == |FullScan(m, p)|
    ensures forall k :: k in ks <==> k in m && p(m[k])
    ensures forall i :: 0 <= i < |ks| ==> ks[i] in m && FullScan(m, p)[i] == m[ks[i]]
  {
    ks := Ascending(KeysHolding(m, p));
    FullScanRows(m, p);
    assert forall i :: 0 <= i < |ks| ==> ks[i] in ks;
    RowsOfPresent(m, ks);
  }

  // ---- Prefix scans ---------------------------------------------------------

  function DropFront(ks: seq<Bytes>, n: nat): (r: seq<Bytes>)
    requires forall k :: k in ks ==> |k| >= n
    ensures |r| == |ks| && forall i :: 0 <= i < |ks| ==> r[i] == ks[i][n..]
  {
    seq(|ks|, i requires 0 <= i < |ks| => ks[i][n..])
  }

  // Behind one prefix, keys are in the order of what follows it.
  lemma DropFrontSorted(ks: seq<Bytes>, p: Bytes)
    requires Sorted(ks) && forall k :: k in ks ==> p <= k
    ensures Sorted(DropFront(ks, |p|))
  {
    assert forall i :: 0 <= i < |ks| ==> ks[i] in ks;
    forall i, j | 0 <= i < j < |ks| ensures LexLt(ks[i][|p|..], ks[j][|p|..]) {
      assert ks[i] == p + ks[i][|p|..] && ks[j] == p + ks[j][|p|..];
      LexConcat(p, ks[i][|p|..], p, ks[j][|p|..]);
      LexIrreflexive(p);
    }
  }

  // ---- HTLC listing ---------------------------------------------------------

  datatype HtlcFilter = HtlcFilter(
    role: Option<HtlcRole>, states: seq<HtlcState>, address: Option<Hash>, sinceHeight: Option<u64>)

  predicate Matches(r: HtlcRecord, f: HtlcFilter) {
    && (f.role.Some? ==> r.role == f.role.value)
    && (f.states != [] ==> r.state in f.states)
    && (f.address.Some? ==> r.params.sender == f.address.value || r.params.receiver == f.address.value)
    && (f.sinceHeight.Some? ==> r.LockHeight() >= f.sinceHeight.value)
  }

  function Matching(f: HtlcFilter): HtlcRecord -> bool {
    r => Matches(r, f)
  }

  function HtlcPlace(r: HtlcRecord): HtlcCursor {
    HtlcCursor(r.LockHeight(), r.lockTxId, r.outputIndex)
  }

  // All matching records of the primary table, by lock height, transaction and output.
  ghost function HtlcListing(m: map<Bytes, HtlcRecord>, f: HtlcFilter): seq<HtlcRecord> {
    StableSort(FullScan(m, Matching(f)), HtlcPlace, HtlcCursorLt)
  }

  lemma HtlcCursorOrder()
    ensures StrictOrder(HtlcCursorLt)
  {
    forall a, b, c: HtlcCursor
      ensures !HtlcCursorLt(a, a)
      ensures HtlcCursorLt(a, b) && HtlcCursorLt(b, c) ==> HtlcCursorLt(a, c)
      ensures HtlcCursorLt(a, b) || a == b || HtlcCursorLt(b, a)
    {
      HtlcCursorTotal(a, b, c);
    }
  }

  // The primary keys at the end of some party-index keys.
  ghost function Tails(qs: set<Bytes>): set<Bytes> {
    set q | q in qs && |q| == 76 :: q[40..]
  }

  lemma TailsWith(qs: set<Bytes>, q: Bytes)
    ensures Tails(qs + {q}) == Tails(qs) + if |q| == 76 then {q[40..72] + q[72..]} else {}
  {
    if |q| == 76 {
      assert q[40..] == q[40..72] + q[72..];
      assert q in qs + {q};
    }
    assert forall x :: x in qs ==> x in qs + {q};
  }

  // The primary keys of the index rows under one address.
  method PartyKeys(index: set<Bytes>, address: Hash, seen: set<Bytes>) returns (pks: set<Bytes>)
    requires forall q :: q in index ==> |q| == 76
    ensures pks == seen + Tails(KeysWithPrefix(index, address))
  {
    hide Tails, SetOf, Ascending, KeysBetween, KeysWithPrefix;
    PrefixKeys(index, address, 44);
    var ks := Scan(index, address + Fill(0, 44), address + Fill(0xFF, 44));
    pks := seen;
    NoTails(ks);
    for i := 0 to |ks|
      invariant pks == seen + Tails(SetOf(ks[..i]))
    {
      SetOfSnoc(ks, i);
      TailsWith(SetOf(ks[..i]), ks[i]);
      if |ks[i]| == 76 {
        pks := pks + {ks[i][40..72] + ks[i][72..]};
      }
    }
    assert ks[..|ks|] == ks;
    AscendingSet(KeysWithPrefix(index, address));
  }

  lemma AscendingSet(keys: set<Bytes>)
    ensures SetOf(Ascending(keys)) == keys
  {}

  lemma NoTails(ks: seq<Bytes>)
    ensures Tails(SetOf(ks[..0])) == {}
  {}

  // What the two party indexes find is what the records themselves say.
  lemma PartyKeysAgree(m: map<Bytes, HtlcRecord>, address: Hash)
    requires forall k :: k in m ==> k == HtlcKey(m[k])
    ensures Tails(KeysWithPrefix(Index(m, SenderKey), address)) == set k | k in m && m[k].params.sender == address
    ensures Tails(KeysWithPrefix(Index(m, ReceiverKey), address)) == set k | k in m && m[k].params.receiver == address
  {
    forall k | k in m && m[k].params.sender == address
      ensures k in Tails(KeysWithPrefix(Index(m, SenderKey), address))
    {
      var q := SenderKey(m[k]);
      assert q in Index(m, SenderKey) && q[..32] == address && q[40..] == k;
    }
    forall k | k in m && m[k].params.receiver == address
      ensures k in Tails(KeysWithPrefix(Index(m, ReceiverKey), address))
    {
      var q := ReceiverKey(m[k]);
      assert q in Index(m, ReceiverKey) && q[..32] == address && q[40..] == k;
    }
  }

  method ReadRows<V>(m: map<Bytes, V>, ks: seq<Bytes>) returns (rows: seq<V>)
    ensures rows == RowsOf(m, ks)
  {
    rows := [];
    for i := 0 to |ks|
      invariant rows == RowsOf(m, ks[..i])
    {
      RowsOfSnoc(m, ks, i);
      if ks[i] in m {
        rows := rows + [m[ks[i]]];
      }
    }
    assert ks[..|ks|] == ks;
  }

  // The records a listing starts from: with an address, those under it in either party
  // index, each once; otherwise all of them.
  method Materialize(db: Db, f: HtlcFilter) returns (rows: seq<HtlcRecord>)
    requires db.Valid()
    ensures Filter(rows, Matching(f)) == FullScan(db.htlcFull, Matching(f))
  {
    var m := db.htlcFull;
    match f.address {
      case Some(address) =>
        PartyKeysAgree(m, address);
        var keys := PartyKeys(db.htlcBySender, address, {});
        keys := PartyKeys(db.htlcByReceiver, address, keys);
        var pks := Iterate(keys);
        rows := ReadRows(m, pks);
        PartialScan(m, keys, Matching(f), Matching(f));
      case None =>
        var pks := Iterate(m.Keys);
        rows := ReadRows(m, pks);
    }
  }

  method ListHtlcs(db: Db, f: HtlcFilter, limit: nat, cursor: Option<HtlcCursor>) returns (r: Result<Page<HtlcRecord, HtlcCursor>>)
    requires db.Valid()
    ensures r == TakePage(HtlcListing(db.htlcFull, f), HtlcPlace, HtlcCursorLt, limit, cursor)
  {
    var rows := Materialize(db, f);
    rows := Filter(rows, Matching(f));
    rows := StableSort(rows, HtlcPlace, HtlcCursorLt);
    if cursor.Some? {
      rows := Filter(rows, Later(HtlcPlace, HtlcCursorLt, cursor.value));
    }
    r := CutPage(rows, HtlcPlace, limit);
  }

  // The end of every paged query: a cursor if more is left, then the truncation.
  method CutPage<R, K>(rest: seq<R>, key: R -> K, limit: nat) returns (r: Result<Page<R, K>>)
    ensures r == if |rest| <= limit then Ok(Page(rest, None))
                 else if limit == 0 then Err
                 else Ok(Page(rest[..limit], Some(key(rest[limit - 1]))))
  {
    var next: Option<K> := None;
    if |rest| > limit {
      if limit == 0 {
        return Err;
      }
      next := Some(key(rest[limit - 1]));
    }
    r := Ok(Page(if |rest| > limit then rest[..limit] else rest, next));
  }

  // A record is asked for: its role, one of the states if any are named, the address as
  // sender or receiver, and a lock height (none counting as the last) not below the least.
  ghost predicate Asked(r: HtlcRecord, f: HtlcFilter) {
    && (f.role == None || f.role == Some(r.role))
    && (f.states == [] || exists i :: 0 <= i < |f.states| && f.states[i] == r.state)
    && (f.address == None || f.address == Some(r.params.sender) || f.address == Some(r.params.receiver))
    && (f.sinceHeight == None || r.lockBlockHeight == None || f.sinceHeight.value <= r.lockBlockHeight.value)
  }

  // One record comes before another: by lock height, then transaction, then output.
  ghost predicate ListedBefore(a: HtlcRecord, b: HtlcRecord) {
    var x := match a.lockBlockHeight case Some(h) => h case None => 0xFFFF_FFFF_FFFF_FFFF;
    var y := match b.lockBlockHeight case Some(h) => h case None => 0xFFFF_FFFF_FFFF_FFFF;
    || x < y
    || (x == y && LexLt(a.lockTxId, b.lockTxId))
    || (x == y && a.lockTxId == b.lockTxId && a.outputIndex < b.outputIndex)
  }

  lemma AskedMatches(r: HtlcRecord, f: HtlcFilter)
    ensures Matches(r, f) <==> Asked(r, f)
  {}

  // The listing holds exactly the records asked for, each once and in that order.
  lemma HtlcListingMeans(m: map<Bytes, HtlcRecord>, f: HtlcFilter)
    requires forall k :: k in m ==> k == HtlcKey(m[k])
    ensures var rows := HtlcListing(m, f);
            && SortedBy(rows, HtlcPlace, HtlcCursorLt) && DistinctKeys(rows, HtlcPlace)
            && (forall i, j :: 0 <= i < j < |rows| ==> ListedBefore(rows[i], rows[j]))
            && (forall r :: r in rows <==> HtlcKey(r) in m && m[HtlcKey(r)] == r && Asked(r, f))
  {
    hide Asked, Matches, ListedBefore, HtlcKey;
    var scan := FullScan(m, Matching(f));
    var rows := HtlcListing(m, f);
    var ks := FullScanMeans(m, Matching(f));
    HtlcCursorOrder();
    StableSortMeans(scan, HtlcPlace, HtlcCursorLt);
    forall r ensures r in rows <==> HtlcKey(r) in m && m[HtlcKey(r)] == r && Asked(r, f) {
      AskedMatches(r, f);
      assert r in rows <==> r in multiset(rows);
      assert r in scan <==> r in multiset(scan);
      if r in scan {
        var i :| 0 <= i < |scan| && scan[i] == r;
        assert ks[i] in ks;
      }
      if HtlcKey(r) in m && m[HtlcKey(r)] == r && Matches(r, f) {
        assert HtlcKey(r) in ks;
        var i :| 0 <= i < |ks| && ks[i] == HtlcKey(r);
        assert scan[i] == r;
      }
    }
    ScanDistinct(m, ks, scan);
    DistinctKeysOfPermutation(scan, rows, HtlcPlace);
    forall i, j | 0 <= i < j < |rows| ensures ListedBefore(rows[i], rows[j]) {
      PlacedBefore(rows[i], rows[j]);
    }
  }

  lemma PlacedBefore(a: HtlcRecord, b: HtlcRecord)
    ensures HtlcCursorLt(HtlcPlace(a), HtlcPlace(b)) <==> ListedBefore(a, b)
  {
    hide LexLt;
  }

  lemma ScanDistinct(m: map<Bytes, HtlcRecord>, ks: seq<Bytes>, scan: seq<HtlcRecord>)
    requires forall k :: k in m ==> k == HtlcKey(m[k])
    requires Sorted(ks) && |ks| == |scan| && forall i :: 0 <= i < |ks| ==> ks[i] in m && scan[i] == m[ks[i]]
    ensures DistinctKeys(scan, HtlcPlace)
  {
    forall i, j | 0 <= i < j < |scan| ensures HtlcPlace(scan[i]) != HtlcPlace(scan[j]) {
      if HtlcPlace(scan[i]) == HtlcPlace(scan[j]) {
        assert ks[i] == HtlcKey(scan[i]) == HtlcKey(scan[j]) == ks[j];
        SortedDistinct(ks, i, j);
      }
    }
  }

  // Paging through a listing of HTLCs shows exactly the listing, whatever the page size.
  lemma HtlcPaging(m: map<Bytes, HtlcRecord>, f: HtlcFilter, limit: nat)
    requires forall k :: k in m ==> k == HtlcKey(m[k])
    requires limit >= 1
    ensures StrictOrder(HtlcCursorLt)
    ensures Collect(HtlcListing(m, f), HtlcPlace, HtlcCursorLt, limit, None) == HtlcListing(m, f)
  {
    HtlcCursorOrder();
    HtlcListingMeans(m, f);
    PagingTheorem(HtlcListing(m, f), HtlcPlace, HtlcCursorLt, limit);
  }

  // ---- Lookup by hashlock ---------------------------------------------------

  function HasHashlock(h: Bytes): HtlcRecord -> bool {
    (r: HtlcRecord) => r.params.hashLock == h
  }

  method TailList(ks: seq<Bytes>, n: nat, width: nat) returns (tails: seq<Bytes>)
    requires forall k :: k in ks ==> |k| == width && width >= n
    ensures tails == DropFront(ks, n)
  {
    tails := [];
    for i := 0 to |ks|
      invariant |tails| == i && forall j :: 0 <= j < i ==> tails[j] == ks[j][n..]
    {
      assert ks[i] in ks;
      if |ks[i]| == width {
        tails := tails + [ks[i][n..]];
      }
    }
    assert tails == DropFront(ks, n);
  }

  lemma HashlockKeyOf(m: map<Bytes, HtlcRecord>, h: Hash, q: Bytes) returns (k: Bytes)
    requires forall k :: k in m ==> k == HtlcKey(m[k])
    requires q in KeysWithPrefix(Index(m, RecordHashlockKey), h)
    ensures |q| == 68 && q[32..] == k && k in KeysHolding(m, HasHashlock(h))
  {
    k :| k in m && q == RecordHashlockKey(m[k]);
    assert q[..32] == h;
  }

  lemma HashlockKeyFor(m: map<Bytes, HtlcRecord>, h: Hash, k: Bytes) returns (q: Bytes)
    requires forall k :: k in m ==> k == HtlcKey(m[k])
    requires k in KeysHolding(m, HasHashlock(h))
    ensures |q| == 68 && q[32..] == k && q in KeysWithPrefix(Index(m, RecordHashlockKey), h)
  {
    q := RecordHashlockKey(m[k]);
    assert q == h + q[32..];
  }

  // Under one hashlock the index lists the primary keys of its records, in order.
  lemma HashlockTails(m: map<Bytes, HtlcRecord>, h: Hash)
    requires forall k :: k in m ==> k == HtlcKey(m[k])
    ensures var ks := Ascending(KeysWithPrefix(Index(m, RecordHashlockKey), h));
            && (forall k :: k in ks ==> |k| == 68)
            && DropFront(ks, 32) == Ascending(KeysHolding(m, HasHashlock(h)))
  {
    hide HashlockKey, Ascending, KeysHolding, Index, HtlcKey;
    var ks := Ascending(KeysWithPrefix(Index(m, RecordHashlockKey), h));
    forall q | q in ks ensures |q| == 68 && q[32..] in KeysHolding(m, HasHashlock(h)) {
      var k := HashlockKeyOf(m, h, q);
    }
    var tails := DropFront(ks, 32);
    DropFrontSorted(ks, h);
    forall k | k in KeysHolding(m, HasHashlock(h)) ensures k in tails {
      var q := HashlockKeyFor(m, h, k);
      var i :| 0 <= i < |ks| && ks[i] == q;
      assert tails[i] == k;
    }
    AscendingUnique(tails, Ascending(KeysHolding(m, HasHashlock(h))));
  }

  method LookupByHashlock(db: Db, h: Hash) returns (rows: seq<HtlcRecord>)
    requires db.Valid()
    ensures rows == FullScan(db.htlcFull, HasHashlock(h))
  {
    hide RowsOf, FullScan, Ascending, KeysBetween, KeysWithPrefix, DropFront, KeysHolding;
    PrefixKeys(db.htlcByHashlock, h, 36);
    HashlockTails(db.htlcFull, h);
    FullScanRows(db.htlcFull, HasHashlock(h));
    var ks := Scan(db.htlcByHashlock, h + Fill(0, 36), h + Fill(0xFF, 36));
    var pks := TailList(ks, 32, 68);
    rows := ReadRows(db.htlcFull, pks);
  }

  // The lookup answers exactly the records with the hashlock, each once, by outpoint.
  lemma LookupMeans(m: map<Bytes, HtlcRecord>, h: Bytes)
    requires forall k :: k in m ==> k == HtlcKey(m[k])
    ensures var rows := FullScan(m, HasHashlock(h));
            && (forall r :: r in rows <==> HtlcKey(r) in m && m[HtlcKey(r)] == r && r.params.hashLock == h)
            && (forall i, j :: 0 <= i < j < |rows| ==> LexLt(HtlcKey(rows[i]), HtlcKey(rows[j])))
  {
    hide HtlcKey, LexLt;
    var rows := FullScan(m, HasHashlock(h));
    var ks := FullScanMeans(m, HasHashlock(h));
    assert forall i :: 0 <= i < |ks| ==> ks[i] in ks;
    forall r ensures r in rows <==> HtlcKey(r) in m && m[HtlcKey(r)] == r && r.params.hashLock == h {
      if HtlcKey(r) in m && m[HtlcKey(r)] == r && r.params.hashLock == h {
        assert HtlcKey(r) in ks;
        var i :| 0 <= i < |ks| && ks[i] == HtlcKey(r);
        assert rows[i] == r;
      }
    }
  }

  // ---- Settlements ----------------------------------------------------------

  predicate SettlementMatches(s: SettlementRecord, address: Hash, contract: Option<Hash>, since: Option<u64>) {
    && s.observerAddress == address
    && (contract.Some? ==> s.contractHash == contract.value)
    && (since.Some? ==> s.blockHeight >= since.value)
  }

  function SettlementMatching(address: Hash, contract: Option<Hash>, since: Option<u64>): SettlementRecord -> bool {
    s => SettlementMatches(s, address, contract, since)
  }

  function SettlementPlace(s: SettlementRecord): RowCursor {
    RowCursor(s.blockHeight, s.txId)
  }

  ghost function SettlementListing(m: map<Bytes, SettlementRecord>, address: Hash, contract: Option<Hash>, since: Option<u64>)
    : seq<SettlementRecord>
  {
    StableSort(FullScan(m, SettlementMatching(address, contract, since)), SettlementPlace, RowCursorLt)
  }

  lemma RowCursorOrder()
    ensures StrictOrder(RowCursorLt)
  {
    forall a, b, c: RowCursor
      ensures !RowCursorLt(a, a)
      ensures RowCursorLt(a, b) && RowCursorLt(b, c) ==> RowCursorLt(a, c)
      ensures RowCursorLt(a, b) || a == b || RowCursorLt(b, a)
    {
      RowCursorTotal(a, b, c);
    }
  }

  // The bounds of the range read: one contract's rows for the address, or the whole table.
  function SettlementRange(address: Hash, contract: Option<Hash>): (Bytes, Bytes) {
    match contract
    case Some(c) => ((c + address) + Fill(0, 40), (c + address) + Fill(0xFF, 40))
    case None => (Fill(0, 104), Fill(0xFF, 104))
  }

  // The range reads every row the query wants, and with a contract only that contract's rows.
  lemma SettlementRangeCovers(m: map<Bytes, SettlementRecord>, address: Hash, contract: Option<Hash>)
    requires forall k :: k in m ==> k == ContractKey(m[k])
    ensures var (lo, hi) := SettlementRange(address, contract);
            forall k :: k in m ==>
              && (contract.None? ==> InRange(lo, hi, k))
              && (contract.Some? ==> (InRange(lo, hi, k) <==> m[k].contractHash == contract.value && m[k].observerAddress == address))
  {
    forall k | k in m
      ensures var (lo, hi) := SettlementRange(address, contract);
              && (contract.None? ==> InRange(lo, hi, k))
              && (contract.Some? ==> (InRange(lo, hi, k) <==> m[k].contractHash == contract.value && m[k].observerAddress == address))
    {
      match contract
      case Some(c) =>
        PrefixRange(c + address, 40, k);
        assert k[..64] == k[..32] + k[32..64];
      case None =>
        FillBounds(k);
    }
  }

  method ListSettlements(db: Db, address: Hash, contract: Option<Hash>, since: Option<u64>, limit: nat, cursor: Option<RowCursor>)
    returns (r: Result<Page<SettlementRecord, RowCursor>>)
    requires db.Valid()
    ensures r == TakePage(SettlementListing(db.settlementByContract, address, contract, since),
                          SettlementPlace, RowCursorLt, limit, cursor)
  {
    var m := db.settlementByContract;
    var (lo, hi) := SettlementRange(address, contract);
    var ks := Scan(m.Keys, lo, hi);
    var rows := ReadSettlements(m, ks, address, since);
    SettlementScan(m, address, contract, since);
    rows := StableSort(rows, SettlementPlace, RowCursorLt);
    if cursor.Some? {
      rows := Filter(rows, Later(SettlementPlace, RowCursorLt, cursor.value));
    }
    r := CutPage(rows, SettlementPlace, limit);
  }

  // The reading loop keeps the rows of the observer at or above the height asked for.
  method ReadSettlements(m: map<Bytes, SettlementRecord>, ks: seq<Bytes>, address: Hash, since: Option<u64>)
    returns (rows: seq<SettlementRecord>)
    requires forall k :: k in ks ==> k in m
    ensures rows == Filter(RowsOf(m, ks), SettlementMatching(address, None, since))
  {
    ghost var keep := SettlementMatching(address, None, since);
    rows := [];
    for i := 0 to |ks|
      invariant rows == Filter(RowsOf(m, ks[..i]), keep)
    {
      RowsOfSnoc(m, ks, i);
      assert ks[i] in ks;
      var s := m[ks[i]];
      FilterConcat(RowsOf(m, ks[..i]), [s], keep);
      FilterOne(s, keep);
      if s.observerAddress == address && (since.Some? ==> s.blockHeight >= since.value) {
        rows := rows + [s];
      }
    }
    assert ks[..|ks|] == ks;
  }

  lemma SettlementScan(m: map<Bytes, SettlementRecord>, address: Hash, contract: Option<Hash>, since: Option<u64>)
    requires forall k :: k in m ==> k == ContractKey(m[k])
    ensures var (lo, hi) := SettlementRange(address, contract);
            Filter(RowsOf(m, Ascending(KeysBetween(m.Keys, lo, hi))), SettlementMatching(address, None, since))
            == FullScan(m, SettlementMatching(address, contract, since))
  {
    hide Filter, RowsOf, Ascending, InRange, ContractKey, SettlementRange, FullScan;
    var (lo, hi) := SettlementRange(address, contract);
    SettlementRangeCovers(m, address, contract);
    PartialScan(m, KeysBetween(m.Keys, lo, hi), SettlementMatching(address, None, since), SettlementMatching(address, contract, since));
  }

  // A settlement is asked for: the observer, the contract if one is named, and a height not
  // below the least.
  ghost predicate SettlementAsked(s: SettlementRecord, address: Hash, contract: Option<Hash>, since: Option<u64>) {
    && s.observerAddress == address
    && (contract == None || contract == Some(s.contractHash))
    && (since == None || since.value <= s.blockHeight)
  }

  // The listing holds exactly those, by height, then transaction.
  lemma SettlementListingMeans(m: map<Bytes, SettlementRecord>, address: Hash, contract: Option<Hash>, since: Option<u64>)
    requires forall k :: k in m ==> k == ContractKey(m[k])
    ensures var rows := SettlementListing(m, address, contract, since);
            && (forall s :: s in rows <==> ContractKey(s) in m && m[ContractKey(s)] == s && SettlementAsked(s, address, contract, since))
            && |rows| == |KeysHolding(m, SettlementMatching(address, contract, since))|
            && (forall i, j :: 0 <= i < j < |rows| ==>
                  rows[i].blockHeight < rows[j].blockHeight
                  || (rows[i].blockHeight == rows[j].blockHeight && !LexLt(rows[j].txId, rows[i].txId)))
  {
    hide ContractKey, LexLt, FullScan, StableSort, SettlementAsked, SettlementMatches, RowCursorLt;
    var p := SettlementMatching(address, contract, since);
    var scan, rows := FullScan(m, p), SettlementListing(m, address, contract, since);
    var ks := FullScanMeans(m, p);
    RowCursorOrder();
    StableSortMeans(scan, SettlementPlace, RowCursorLt);
    assert |multiset(rows)| == |multiset(scan)|;
    AscendingSize(ks, KeysHolding(m, p));
    forall s ensures s in rows <==> ContractKey(s) in m && m[ContractKey(s)] == s && SettlementAsked(s, address, contract, since) {
      assert s in rows <==> s in scan by {
        assert s in rows <==> s in multiset(rows);
        assert s in scan <==> s in multiset(scan);
      }
      SettlementAskedMatches(s, address, contract, since);
      if s in scan {
        var i :| 0 <= i < |scan| && scan[i] == s;
        assert ks[i] in ks;
      }
      if ContractKey(s) in m && m[ContractKey(s)] == s && p(s) {
        assert ContractKey(s) in ks;
        var i :| 0 <= i < |ks| && ks[i] == ContractKey(s);
        assert scan[i] == s;
      }
    }
    forall i, j | 0 <= i < j < |rows|
      ensures rows[i].blockHeight < rows[j].blockHeight
              || (rows[i].blockHeight == rows[j].blockHeight && !LexLt(rows[j].txId, rows[i].txId))
    {
      SettledBefore(rows[i], rows[j]);
    }
  }

  lemma SettlementAskedMatches(s: SettlementRecord, address: Hash, contract: Option<Hash>, since: Option<u64>)
    ensures SettlementMatches(s, address, contract, since) <==> SettlementAsked(s, address, contract, since)
  {}

  lemma SettledBefore(a: SettlementRecord, b: SettlementRecord)
    ensures !RowCursorLt(SettlementPlace(b), SettlementPlace(a)) <==>
            a.blockHeight < b.blockHeight || (a.blockHeight == b.blockHeight && !LexLt(b.txId, a.txId))
  {
    hide LexLt;
  }

  lemma {:induction false} AscendingSize(ks: seq<Bytes>, keys: set<Bytes>)
    requires Sorted(ks) && forall k :: k in ks <==> k in keys
    ensures |ks| == |keys|
  {
    hide LexLt;
    if ks == [] {
      assert keys == {};
    } else {
      var n := |ks| - 1;
      assert ks == ks[..n] + [ks[n]];
      forall k | k in ks[..n] ensures k != ks[n] {
        var i :| 0 <= i < n && ks[i] == k;
        LexIrreflexive(k);
      }
      AscendingSize(ks[..n], keys - {ks[n]});
    }
  }

  // For one contract the scan is already in order, with distinct keys.
  lemma ContractScanSorted(m: map<Bytes, SettlementRecord>, address: Hash, contract: Hash, since: Option<u64>)
    requires forall k :: k in m ==> k == ContractKey(m[k])
    ensures var scan := FullScan(m, SettlementMatching(address, Some(contract), since));
            forall i, j :: 0 <= i < j < |scan| ==> RowCursorLt(SettlementPlace(scan[i]), SettlementPlace(scan[j]))
  {
    hide SettlementKey, FullScan, RowCursorLt;
    var p := SettlementMatching(address, Some(contract), since);
    var scan := FullScan(m, p);
    var ks := FullScanMeans(m, p);
    forall i, j | 0 <= i < j < |scan| ensures RowCursorLt(SettlementPlace(scan[i]), SettlementPlace(scan[j])) {
      assert ks[i] in ks && ks[j] in ks;
      SettlementKeyOrder(contract, address, scan[i].blockHeight, scan[i].txId, scan[j].blockHeight, scan[j].txId);
    }
  }

  // A listing for one contract has distinct keys, so paging shows exactly the listing.
  lemma SettlementPaging(m: map<Bytes, SettlementRecord>, address: Hash, contract: Hash, since: Option<u64>, limit: nat)
    requires forall k :: k in m ==> k == ContractKey(m[k])
    requires limit >= 1
    ensures StrictOrder(RowCursorLt)
    ensures var rows := SettlementListing(m, address, Some(contract), since);
            && Collect(rows, SettlementPlace, RowCursorLt, limit, None) == rows
            && rows == FullScan(m, SettlementMatching(address, Some(contract), since))
  {
    hide FullScan, RowCursorLt, Collect, StableSort;
    var scan := FullScan(m, SettlementMatching(address, Some(contract), since));
    RowCursorOrder();
    ContractScanSorted(m, address, contract, since);
    StableSortSorted(scan, SettlementPlace, RowCursorLt);
    PagingTheorem(scan, SettlementPlace, RowCursorLt, limit);
  }

  // One transaction settled for the address under two contracts at one height.
  ghost predicate TwoContracts(m: map<Bytes, SettlementRecord>, address: Hash, since: Option<u64>, height: u64, txId: Hash) {
    && (since.Some? ==> height >= since.value)
    && exists c, c' :: c != c' && SettlementKey(c, address, height, txId) in m && SettlementKey(c', address, height, txId) in m
  }

  lemma TwoContractsTie(m: map<Bytes, SettlementRecord>, address: Hash, since: Option<u64>, h: u64, t: Hash)
    requires forall k :: k in m ==> k == ContractKey(m[k])
    requires TwoContracts(m, address, since, h, t)
    ensures !DistinctKeys(FullScan(m, SettlementMatching(address, None, since)), SettlementPlace)
  {
    hide FullScan, SettlementKey;
    var p := SettlementMatching(address, None, since);
    var c, c' :| c != c' && SettlementKey(c, address, h, t) in m && SettlementKey(c', address, h, t) in m;
    var k, k' := SettlementKey(c, address, h, t), SettlementKey(c', address, h, t);
    SettlementKeyInjective(c, address, h, t, c', address, h, t);
    SettlementKeyInjective(c, address, h, t, m[k].contractHash, m[k].observerAddress, m[k].blockHeight, m[k].txId);
    SettlementKeyInjective(c', address, h, t, m[k'].contractHash, m[k'].observerAddress, m[k'].blockHeight, m[k'].txId);
    var ks := FullScanMeans(m, p);
    var i :| 0 <= i < |ks| && ks[i] == k;
    var j :| 0 <= j < |ks| && ks[j] == k';
    var scan := FullScan(m, p);
    assert i != j && SettlementPlace(scan[i]) == SettlementPlace(scan[j]);
  }

  lemma TieHasTwoContracts(m: map<Bytes, SettlementRecord>, address: Hash, since: Option<u64>)
    returns (h: u64, t: Hash)
    requires forall k :: k in m ==> k == ContractKey(m[k])
    requires !DistinctKeys(FullScan(m, SettlementMatching(address, None, since)), SettlementPlace)
    ensures TwoContracts(m, address, since, h, t)
  {
    hide FullScan, SettlementKey, LexLt;
    var p := SettlementMatching(address, None, since);
    var scan := FullScan(m, p);
    var ks := FullScanMeans(m, p);
    var i, j :| 0 <= i < j < |scan| && SettlementPlace(scan[i]) == SettlementPlace(scan[j]);
    assert ks[i] in ks && ks[j] in ks;
    if ks[i] == ks[j] {
      SortedDistinct(ks, i, j);
    }
    hide Sorted;
    h, t := scan[i].blockHeight, scan[i].txId;
    assert SettlementKey(scan[i].contractHash, address, h, t) == ks[i];
    assert SettlementKey(scan[j].contractHash, address, h, t) == ks[j];
  }

  // Without a contract, pages of every size show the whole listing exactly when no
  // transaction settled for the address under two contracts at one height.
  lemma SettlementsComplete(m: map<Bytes, SettlementRecord>, address: Hash, since: Option<u64>)
    requires forall k :: k in m ==> k == ContractKey(m[k])
    ensures StrictOrder(RowCursorLt)
    ensures Complete(SettlementListing(m, address, None, since), SettlementPlace, RowCursorLt) <==>
            forall h, t :: !TwoContracts(m, address, since, h, t)
  {
    hide FullScan, RowCursorLt, StableSort, TwoContracts, Complete;
    RowCursorOrder();
    var scan := FullScan(m, SettlementMatching(address, None, since));
    var rows := SettlementListing(m, address, None, since);
    StableSortMeans(scan, SettlementPlace, RowCursorLt);
    CompleteWhenDistinct(rows, SettlementPlace, RowCursorLt);
    SameDistinctKeys(scan, rows, SettlementPlace);
    if h, t :| TwoContracts(m, address, since, h, t) {
      TwoContractsTie(m, address, since, h, t);
    } else if !DistinctKeys(scan, SettlementPlace) {
      var h, t := TieHasTwoContracts(m, address, since);
    }
  }
}
