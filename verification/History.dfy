/** The address timeline and the quote lookup. */
module History {
  import opened ByteStrings
  import opened Records
  import opened Keys
  import opened Tables
  import opened Database
  import opened Seqs
  import opened Paging
  import opened Queries
  import opened Runs

  datatype AddressHistoryRow = AddressHistoryRow(
    blockHeight: u64, txId: Hash, amount: u64, isInput: bool, isCoinbase: bool, counterparties: seq<Hash>)

  function RowPlace(r: AddressHistoryRow): RowCursor {
    RowCursor(r.blockHeight, r.txId)
  }

  // A stored row, decoded from its key and value.
  function HistoryRow(k: Bytes, v: ActivityValue): AddressHistoryRow
    requires |k| == 73
  {
    Widths();
    AddressHistoryRow(FromBE(k[32..40]), k[40..72], v.amount, k[72] == DIR_INPUT_FROM, v.isCoinbase, v.counterparties)
  }

  predicate Wanted(k: Bytes, address: Hash, since: Option<u64>) {
    |k| == 73 && k[..32] == address && (since.Some? ==> FromBE(k[32..40]) >= since.value)
  }

  function WantedBy(address: Hash, since: Option<u64>): Bytes -> bool {
    k => Wanted(k, address, since)
  }

  ghost function HistoryKeys(m: map<Bytes, ActivityValue>, address: Hash, since: Option<u64>): (ks: seq<Bytes>)
    ensures Sorted(ks)
    ensures forall k :: k in ks <==> k in m && Wanted(k, address, since)
  {
    Ascending(set k | k in m.Keys && WantedBy(address, since)(k))
  }

  function HistoryRowsOf(m: map<Bytes, ActivityValue>, ks: seq<Bytes>): seq<AddressHistoryRow> {
    if ks == [] then []
    else
      var n := |ks| - 1;
      HistoryRowsOf(m, ks[..n]) + if ks[n] in m && |ks[n]| == 73 then [HistoryRow(ks[n], m[ks[n]])] else []
  }

  // The rows of one address, in the order of their keys.
  ghost function HistoryScan(m: map<Bytes, ActivityValue>, address: Hash, since: Option<u64>): seq<AddressHistoryRow> {
    HistoryRowsOf(m, HistoryKeys(m, address, since))
  }

  lemma {:induction false} HistoryRowsPresent(m: map<Bytes, ActivityValue>, ks: seq<Bytes>)
    requires forall i :: 0 <= i < |ks| ==> ks[i] in m && |ks[i]| == 73
    ensures |HistoryRowsOf(m, ks)| == |ks|
    ensures forall i :: 0 <= i < |ks| ==> HistoryRowsOf(m, ks)[i] == HistoryRow(ks[i], m[ks[i]])
  {
    if ks != [] {
      HistoryRowsPresent(m, ks[..|ks| - 1]);
    }
  }

  // The scan has one row for each wanted key.
  lemma HistoryScanRows(m: map<Bytes, ActivityValue>, address: Hash, since: Option<u64>)
    ensures var ks, scan := HistoryKeys(m, address, since), HistoryScan(m, address, since);
            && |scan| == |ks|
            && forall i :: 0 <= i < |ks| ==> ks[i] in m && Wanted(ks[i], address, since) && scan[i] == HistoryRow(ks[i], m[ks[i]])
  {
    var ks := HistoryKeys(m, address, since);
    assert forall i :: 0 <= i < |ks| ==> ks[i] in ks;
    HistoryRowsPresent(m, ks);
  }

  function HistoryOrder(reverse: bool): (RowCursor, RowCursor) -> bool {
    if reverse then Flip(RowCursorLt) else RowCursorLt
  }

  ghost function HistoryListing(m: map<Bytes, ActivityValue>, address: Hash, since: Option<u64>, reverse: bool)
    : seq<AddressHistoryRow>
  {
    StableSort(HistoryScan(m, address, since), RowPlace, HistoryOrder(reverse))
  }

  method ListAddressHistory(db: Db, address: Hash, since: Option<u64>, limit: nat, cursor: Option<RowCursor>, reverse: bool)
    returns (r: Result<Page<AddressHistoryRow, RowCursor>>)
    ensures r == TakePage(HistoryListing(db.txByAddress, address, since, reverse), RowPlace, HistoryOrder(reverse), limit, cursor)
  {
    var rows := ReadHistory(db.txByAddress, address, since);
    rows := StableSort(rows, RowPlace, HistoryOrder(reverse));
    if cursor.Some? {
      rows := Filter(rows, Later(RowPlace, HistoryOrder(reverse), cursor.value));
    }
    r := CutPage(rows, RowPlace, limit);
  }

  method ReadHistory(m: map<Bytes, ActivityValue>, address: Hash, since: Option<u64>) returns (rows: seq<AddressHistoryRow>)
    ensures rows == HistoryScan(m, address, since)
  {
    hide HistoryRow, HistoryKeys, KeysBetween, Ascending, Filter, HistoryRowsOf;
    var ks := Scan(m.Keys, address + Fill(0, 41), address + Fill(0xFF, 41));
    ghost var keep := WantedBy(address, since);
    RangeKeepsWanted(m, address, since);
    rows := [];
    NoHistory(m, ks, keep);
    for i := 0 to |ks|
      invariant rows == HistoryRowsOf(m, Filter(ks[..i], keep))
    {
      var k := ks[i];
      HistoryStep(m, ks, keep, i);
      if |k| == 73 {
        Widths();
        var height: u64 := FromBE(k[32..40]);
        if since.None? || height >= since.value {
          rows := rows + [HistoryRow(k, m[k])];
        }
      }
    }
    assert ks[..|ks|] == ks;
  }

  lemma NoHistory(m: map<Bytes, ActivityValue>, ks: seq<Bytes>, keep: Bytes -> bool)
    ensures HistoryRowsOf(m, Filter(ks[..0], keep)) == []
  {}

  lemma HistoryStep(m: map<Bytes, ActivityValue>, ks: seq<Bytes>, keep: Bytes -> bool, i: nat)
    requires i < |ks| && ks[i] in m && (keep(ks[i]) ==> |ks[i]| == 73)
    ensures HistoryRowsOf(m, Filter(ks[..i + 1], keep)) ==
            HistoryRowsOf(m, Filter(ks[..i], keep)) + if keep(ks[i]) then [HistoryRow(ks[i], m[ks[i]])] else []
  {
    hide HistoryRow, Filter, HistoryRowsOf;
    FilterSnoc(ks, keep, i);
    if keep(ks[i]) {
      HistoryRowsSnoc(m, Filter(ks[..i], keep), ks[i]);
    } else {
      assert Filter(ks[..i + 1], keep) == Filter(ks[..i], keep);
    }
  }

  lemma HistoryRowsSnoc(m: map<Bytes, ActivityValue>, ks: seq<Bytes>, k: Bytes)
    ensures HistoryRowsOf(m, ks + [k]) == HistoryRowsOf(m, ks) + if k in m && |k| == 73 then [HistoryRow(k, m[k])] else []
  {
    assert (ks + [k])[..|ks|] == ks;
  }

  // The range of an address reads its keys; a key of another length in it is skipped.
  lemma RangeKeepsWanted(m: map<Bytes, ActivityValue>, address: Hash, since: Option<u64>)
    ensures var ks := Ascending(KeysBetween(m.Keys, address + Fill(0, 41), address + Fill(0xFF, 41)));
            && (forall i :: 0 <= i < |ks| ==> ks[i] in m)
            && (forall i :: 0 <= i < |ks| && |ks[i]| == 73 ==> ks[i][..32] == address)
            && Filter(ks, WantedBy(address, since)) == HistoryKeys(m, address, since)
  {
    hide Ascending, InRange;
    var keys := KeysBetween(m.Keys, address + Fill(0, 41), address + Fill(0xFF, 41));
    var ks := Ascending(keys);
    forall k: Bytes | |k| == 73 ensures InRange(address + Fill(0, 41), address + Fill(0xFF, 41), k) <==> k[..32] == address {
      PrefixRange(address, 41, k);
    }
    FilterAscending(keys, WantedBy(address, since));
    assert (set k | k in keys && WantedBy(address, since)(k)) == set k | k in m.Keys && WantedBy(address, since)(k);
    assert forall i :: 0 <= i < |ks| ==> ks[i] in ks;
  }

  // ---- What a listing holds -------------------------------------------------

  lemma ActivityKeyFields(k: Bytes)
    requires |k| == 73
    ensures FromBE(k[32..40]) < 0x1_0000_0000_0000_0000
    ensures k == ActivityKey(k[..32], FromBE(k[32..40]), k[40..72], k[72])
  {
    Widths();
    FromBERoundTrip(k[32..40]);
    assert k == k[..32] + k[32..40] + k[40..72] + [k[72]];
  }

  lemma WantedOrder(k: Bytes, k': Bytes, v: ActivityValue, v': ActivityValue)
    requires |k| == |k'| == 73 && k[..32] == k'[..32] && LexLt(k, k')
    ensures var a, b := RowPlace(HistoryRow(k, v)), RowPlace(HistoryRow(k', v'));
            RowCursorLt(a, b) || (a == b && k[72] < k'[72])
  {
    hide ActivityKey, RowCursorLt, LexLt;
    ActivityKeyFields(k);
    ActivityKeyFields(k');
    ActivityKeyOrder(k[..32], FromBE(k[32..40]), k[40..72], k[72], FromBE(k'[32..40]), k'[40..72], k'[72]);
  }

  // Rows come out of the scan in ascending order, and no two are alike.
  lemma HistoryScanSorted(m: map<Bytes, ActivityValue>, address: Hash, since: Option<u64>)
    requires forall k :: k in m ==> |k| == 73 && (k[72] == DIR_OUTPUT_TO || k[72] == DIR_INPUT_FROM)
    ensures var scan := HistoryScan(m, address, since);
            SortedBy(scan, RowPlace, RowCursorLt) && NoRepeats(scan)
  {
    hide RowCursorLt;
    var ks, scan := HistoryKeys(m, address, since), HistoryScan(m, address, since);
    HistoryScanRows(m, address, since);
    forall i, j | 0 <= i < j < |scan|
      ensures !RowCursorLt(RowPlace(scan[j]), RowPlace(scan[i])) && scan[i] != scan[j]
    {
      assert ks[i] in ks && ks[j] in ks;
      WantedOrder(ks[i], ks[j], m[ks[i]], m[ks[j]]);
      RowCursorTotal(RowPlace(scan[i]), RowPlace(scan[j]), RowPlace(scan[i]));
    }
  }

  // What a listed row reports: it is stored for the address, at that height, transaction and
  // direction, with that amount, coinbase flag and counterparties, and not below `since`.
  ghost predicate Reported(m: map<Bytes, ActivityValue>, address: Hash, since: Option<u64>, r: AddressHistoryRow) {
    var k := ActivityKey(address, r.blockHeight, r.txId, if r.isInput then 2 else 1);
    && k in m && m[k].amount == r.amount && m[k].isCoinbase == r.isCoinbase && m[k].counterparties == r.counterparties
    && (since == None || since.value <= r.blockHeight)
  }

  lemma RowReported(m: map<Bytes, ActivityValue>, address: Hash, since: Option<u64>, k: Bytes)
    requires k in m && Wanted(k, address, since) && (k[72] == DIR_OUTPUT_TO || k[72] == DIR_INPUT_FROM)
    ensures Reported(m, address, since, HistoryRow(k, m[k]))
  {
    hide ActivityKey;
    ActivityKeyFields(k);
  }

  lemma ReportedRow(m: map<Bytes, ActivityValue>, address: Hash, since: Option<u64>, r: AddressHistoryRow) returns (k: Bytes)
    requires Reported(m, address, since, r)
    ensures k in m && Wanted(k, address, since) && HistoryRow(k, m[k]) == r
  {
    k := ActivityKey(address, r.blockHeight, r.txId, if r.isInput then 2 else 1);
  }

  lemma HistoryScanMeans(m: map<Bytes, ActivityValue>, address: Hash, since: Option<u64>)
    requires forall k :: k in m ==> |k| == 73 && (k[72] == DIR_OUTPUT_TO || k[72] == DIR_INPUT_FROM)
    ensures forall r :: r in HistoryScan(m, address, since) <==> Reported(m, address, since, r)
  {
    hide HistoryRow, Reported, Wanted, HistoryScan, Sorted;
    var ks, scan := HistoryKeys(m, address, since), HistoryScan(m, address, since);
    HistoryScanRows(m, address, since);
    forall r ensures r in scan <==> Reported(m, address, since, r) {
      if r in scan {
        var i :| 0 <= i < |scan| && scan[i] == r;
        RowReported(m, address, since, ks[i]);
      }
      if Reported(m, address, since, r) {
        var k := ReportedRow(m, address, since, r);
        assert k in ks;
        var i :| 0 <= i < |ks| && ks[i] == k;
        assert scan[i] == r;
      }
    }
  }

  // One row may be listed before another: oldest or newest first, then by transaction.
  ghost predicate InOrder(a: AddressHistoryRow, b: AddressHistoryRow, reverse: bool) {
    if reverse then
      a.blockHeight > b.blockHeight || (a.blockHeight == b.blockHeight && !LexLt(a.txId, b.txId))
    else
      a.blockHeight < b.blockHeight || (a.blockHeight == b.blockHeight && !LexLt(b.txId, a.txId))
  }

  lemma PlacedInOrder(a: AddressHistoryRow, b: AddressHistoryRow, reverse: bool)
    ensures InOrder(a, b, reverse) <==> !HistoryOrder(reverse)(RowPlace(b), RowPlace(a))
  {
    hide LexLt;
    var x, y := RowPlace(a), RowPlace(b);
    if reverse {
      assert HistoryOrder(reverse)(y, x) == Flip(RowCursorLt)(y, x) == RowCursorLt(x, y);
    } else {
      assert HistoryOrder(reverse)(y, x) == RowCursorLt(y, x);
    }
  }

  // The timeline holds exactly those rows, one for each key, oldest or newest first.
  lemma HistoryListingMeans(m: map<Bytes, ActivityValue>, address: Hash, since: Option<u64>, reverse: bool)
    requires forall k :: k in m ==> |k| == 73 && (k[72] == DIR_OUTPUT_TO || k[72] == DIR_INPUT_FROM)
    ensures var rows := HistoryListing(m, address, since, reverse);
            && (forall r :: r in rows <==> Reported(m, address, since, r))
            && NoRepeats(rows)
            && (forall i, j :: 0 <= i < j < |rows| ==> InOrder(rows[i], rows[j], reverse))
  {
    hide Reported, InOrder, HistoryScan, RowCursorLt, HistoryOrder;
    var scan, rows := HistoryScan(m, address, since), HistoryListing(m, address, since, reverse);
    HistoryOrders(reverse);
    HistoryScanMeans(m, address, since);
    HistoryScanSorted(m, address, since);
    StableSortMeans(scan, RowPlace, HistoryOrder(reverse));
    NoRepeatsPermuted(scan, rows);
    forall r ensures r in rows <==> r in scan {
      assert r in rows <==> r in multiset(rows);
      assert r in scan <==> r in multiset(scan);
    }
    forall i, j | 0 <= i < j < |rows| ensures InOrder(rows[i], rows[j], reverse) {
      PlacedInOrder(rows[i], rows[j], reverse);
    }
  }

  lemma HistoryOrders(reverse: bool)
    ensures StrictOrder(HistoryOrder(reverse))
  {
    hide RowCursorLt;
    RowCursorOrder();
    FlipOrder(RowCursorLt);
  }

  lemma NoRepeatsPermuted<T>(s: seq<T>, t: seq<T>)
    requires NoRepeats(s) && multiset(s) == multiset(t)
    ensures NoRepeats(t)
  {
    DistinctKeysOfPermutation(s, t, (x: T) => x);
  }

  // A transaction in which the address both receives and spends: its two rows tie.
  ghost predicate BothSides(m: map<Bytes, ActivityValue>, address: Hash, since: Option<u64>, height: u64, txId: Hash) {
    && (since.Some? ==> height >= since.value)
    && ActivityKey(address, height, txId, DIR_OUTPUT_TO) in m
    && ActivityKey(address, height, txId, DIR_INPUT_FROM) in m
  }

  lemma BothSidesTie(m: map<Bytes, ActivityValue>, address: Hash, since: Option<u64>, h: u64, t: Hash)
    requires BothSides(m, address, since, h, t)
    ensures !DistinctKeys(HistoryScan(m, address, since), RowPlace)
  {
    hide ActivityKey, HistoryScan;
    var ks, scan := HistoryKeys(m, address, since), HistoryScan(m, address, since);
    HistoryScanRows(m, address, since);
    var o, n := ActivityKey(address, h, t, DIR_OUTPUT_TO), ActivityKey(address, h, t, DIR_INPUT_FROM);
    assert o in ks && n in ks;
    var i :| 0 <= i < |ks| && ks[i] == o;
    var j :| 0 <= j < |ks| && ks[j] == n;
    assert i != j && RowPlace(scan[i]) == RowPlace(scan[j]);
  }

  lemma TieHasBothSides(m: map<Bytes, ActivityValue>, address: Hash, since: Option<u64>, k: Bytes, k': Bytes)
    requires forall k :: k in m ==> |k| == 73 && (k[72] == DIR_OUTPUT_TO || k[72] == DIR_INPUT_FROM)
    requires k in m && k' in m && Wanted(k, address, since) && Wanted(k', address, since) && LexLt(k, k')
    requires RowPlace(HistoryRow(k, m[k])) == RowPlace(HistoryRow(k', m[k']))
    ensures var p := RowPlace(HistoryRow(k, m[k])); BothSides(m, address, since, p.height, p.txId)
  {
    hide ActivityKey, RowCursorLt, LexLt;
    var p := RowPlace(HistoryRow(k, m[k]));
    ActivityKeyFields(k);
    ActivityKeyFields(k');
    WantedOrder(k, k', m[k], m[k']);
    RowCursorTotal(p, p, p);
  }

  lemma TiesAreBothSides(m: map<Bytes, ActivityValue>, address: Hash, since: Option<u64>)
    requires forall k :: k in m ==> |k| == 73 && (k[72] == DIR_OUTPUT_TO || k[72] == DIR_INPUT_FROM)
    ensures DistinctKeys(HistoryScan(m, address, since), RowPlace) <==>
            forall h, t :: !BothSides(m, address, since, h, t)
  {
    hide HistoryScan, BothSides, HistoryRow, Wanted;
    var ks, scan := HistoryKeys(m, address, since), HistoryScan(m, address, since);
    HistoryScanRows(m, address, since);
    if h, t :| BothSides(m, address, since, h, t) {
      BothSidesTie(m, address, since, h, t);
    } else if !DistinctKeys(scan, RowPlace) {
      var i, j :| 0 <= i < j < |scan| && RowPlace(scan[i]) == RowPlace(scan[j]);
      TieHasBothSides(m, address, since, ks[i], ks[j]);
    }
  }

  // Oldest first is the order of the keys. Newest first is its reversal exactly when no
  // transaction has the address on both sides.
  lemma HistoryDirections(m: map<Bytes, ActivityValue>, address: Hash, since: Option<u64>)
    requires forall k :: k in m ==> |k| == 73 && (k[72] == DIR_OUTPUT_TO || k[72] == DIR_INPUT_FROM)
    ensures HistoryListing(m, address, since, false) == HistoryScan(m, address, since)
    ensures HistoryListing(m, address, since, true) == Reverse(HistoryListing(m, address, since, false))
            <==> forall h, t :: !BothSides(m, address, since, h, t)
  {
    hide HistoryScan, RowCursorLt, BothSides;
    var scan := HistoryScan(m, address, since);
    RowCursorOrder();
    HistoryScanSorted(m, address, since);
    StableSortSorted(scan, RowPlace, RowCursorLt);
    DescendingIsReversal(scan, RowPlace, RowCursorLt);
    TiesAreBothSides(m, address, since);
  }

  // Paging the timeline, in either direction, loses only rows tied at a page boundary; it
  // is exact when no boundary separates the two sides of one transaction.
  lemma HistoryPaging(m: map<Bytes, ActivityValue>, address: Hash, since: Option<u64>, limit: nat, reverse: bool)
    requires limit >= 1
    ensures StrictOrder(HistoryOrder(reverse))
    ensures var rows := HistoryListing(m, address, since, reverse);
            var all := Collect(rows, RowPlace, HistoryOrder(reverse), limit, None);
            var hidden := Hidden(rows, RowPlace, HistoryOrder(reverse), limit);
            && multiset(rows) == multiset(all) + multiset(hidden)
            && (forall r :: r in hidden ==> RowPlace(r) in PageEnds(rows, RowPlace, HistoryOrder(reverse), limit))
            && (all == rows <==> CleanCuts(rows, RowPlace, limit))
  {
    hide HistoryScan, RowCursorLt;
    RowCursorOrder();
    FlipOrder(RowCursorLt);
    var scan := HistoryScan(m, address, since);
    StableSortMeans(scan, RowPlace, HistoryOrder(reverse));
    PagingTheorem(HistoryListing(m, address, since, reverse), RowPlace, HistoryOrder(reverse), limit);
  }

  // So pages of every size show the whole timeline, in either direction, exactly when no
  // transaction has the address on both sides.
  lemma HistoryComplete(m: map<Bytes, ActivityValue>, address: Hash, since: Option<u64>, reverse: bool)
    requires forall k :: k in m ==> |k| == 73 && (k[72] == DIR_OUTPUT_TO || k[72] == DIR_INPUT_FROM)
    ensures StrictOrder(HistoryOrder(reverse))
    ensures Complete(HistoryListing(m, address, since, reverse), RowPlace, HistoryOrder(reverse)) <==>
            forall h, t :: !BothSides(m, address, since, h, t)
  {
    hide HistoryScan, RowCursorLt, BothSides, Complete;
    RowCursorOrder();
    FlipOrder(RowCursorLt);
    var scan, rows := HistoryScan(m, address, since), HistoryListing(m, address, since, reverse);
    StableSortMeans(scan, RowPlace, HistoryOrder(reverse));
    CompleteWhenDistinct(rows, RowPlace, HistoryOrder(reverse));
    SameDistinctKeys(scan, rows, RowPlace);
    TiesAreBothSides(m, address, since);
  }

  // ---- Quote lookup ---------------------------------------------------------

  datatype DatumOutpoint = DatumOutpoint(txId: Hash, outputIndex: u32)

  function OutpointKey(o: DatumOutpoint): Bytes {
    PrimaryKey(o.txId, o.outputIndex)
  }

  // The outpoints at the end of some reverse-index keys.
  function OutpointsOf(ks: seq<Bytes>): seq<DatumOutpoint> {
    if ks == [] then []
    else
      Widths();
      var k := ks[|ks| - 1];
      OutpointsOf(ks[..|ks| - 1]) + if |k| == 52 then [DatumOutpoint(k[16..48], FromBE(k[48..]))] else []
  }

  method FindSettlementsByQuoteId(db: Db, q: QuoteId) returns (out: seq<DatumOutpoint>)
    ensures forall i, j :: 0 <= i < j < |out| ==> LexLt(OutpointKey(out[i]), OutpointKey(out[j]))
    ensures forall o :: o in out <==> QuoteKey(q, o.txId, o.outputIndex) in db.datumByQuoteId
  {
    hide QuoteKey, PrimaryKey, KeysBetween, Ascending;
    out := [];
    var ks := Scan(db.datumByQuoteId, q + Fill(0, 36), q + Fill(0xFF, 36));
    for i := 0 to |ks|
      invariant out == OutpointsOf(ks[..i])
    {
      assert ks[..i + 1][..i] == ks[..i];
      var k := ks[i];
      if |k| == 52 {
        Widths();
        out := out + [DatumOutpoint(k[16..48], FromBE(k[48..]))];
      }
    }
    assert ks[..|ks|] == ks;
    QuoteScan(db.datumByQuoteId, q);
  }

  lemma QuoteScan(keys: set<Bytes>, q: QuoteId)
    ensures var out := OutpointsOf(Ascending(KeysBetween(keys, q + Fill(0, 36), q + Fill(0xFF, 36))));
            && (forall o :: o in out <==> QuoteKey(q, o.txId, o.outputIndex) in keys)
            && (forall i, j :: 0 <= i < j < |out| ==> LexLt(OutpointKey(out[i]), OutpointKey(out[j])))
  {
    hide QuoteKey, PrimaryKey, InRange, LexLt, Ascending, OutpointsOf;
    var ks := Ascending(KeysBetween(keys, q + Fill(0, 36), q + Fill(0xFF, 36)));
    assert forall i :: 0 <= i < |ks| ==> ks[i] in ks;
    QuoteScanMeans(q, ks);
    forall o: DatumOutpoint ensures QuoteKey(q, o.txId, o.outputIndex) in ks <==> QuoteKey(q, o.txId, o.outputIndex) in keys {
      QuoteInRange(q, o);
    }
  }

  lemma QuoteKeyFields(q: QuoteId, k: Bytes)
    requires |k| == 52 && InRange(q + Fill(0, 36), q + Fill(0xFF, 36), k)
    ensures FromBE(k[48..]) < 0x1_0000_0000 && k == QuoteKey(q, k[16..48], FromBE(k[48..]))
  {
    PrefixRange(q, 36, k);
    Widths();
    FromBERoundTrip(k[48..]);
    assert k == q + (k[16..48] + k[48..]);
  }

  lemma {:induction false} QuoteScanMeans(q: QuoteId, ks: seq<Bytes>)
    requires Sorted(ks) && forall i :: 0 <= i < |ks| ==> InRange(q + Fill(0, 36), q + Fill(0xFF, 36), ks[i])
    ensures var out := OutpointsOf(ks);
            && (forall o :: o in out <==> QuoteKey(q, o.txId, o.outputIndex) in ks)
            && (forall i, j :: 0 <= i < j < |out| ==> LexLt(OutpointKey(out[i]), OutpointKey(out[j])))
  {
    hide QuoteKey, PrimaryKey, InRange, LexLt;
    if ks != [] {
      var n := |ks| - 1;
      var k, front := ks[n], OutpointsOf(ks[..n]);
      QuoteScanMeans(q, ks[..n]);
      assert ks == ks[..n] + [k];
      if |k| == 52 {
        QuoteKeyFields(q, k);
        Widths();
        var last := DatumOutpoint(k[16..48], FromBE(k[48..]));
        forall o ensures o in front + [last] <==> QuoteKey(q, o.txId, o.outputIndex) in ks {
          QuoteKeyInjective(q, o.txId, o.outputIndex, q, last.txId, last.outputIndex);
        }
        forall j | 0 <= j < |front| ensures LexLt(OutpointKey(front[j]), OutpointKey(last)) {
          assert front[j] in front;
          QuoteKeyOrder(q, front[j], last, ks, n);
        }
      } else {
        assert OutpointsOf(ks) == front;
        assert forall o: DatumOutpoint :: |QuoteKey(q, o.txId, o.outputIndex)| == 52;
      }
    }
  }

  lemma QuoteInRange(q: QuoteId, o: DatumOutpoint)
    ensures InRange(q + Fill(0, 36), q + Fill(0xFF, 36), QuoteKey(q, o.txId, o.outputIndex))
  {
    PrefixRange(q, 36, QuoteKey(q, o.txId, o.outputIndex));
  }

  lemma QuoteKeyOrder(q: QuoteId, a: DatumOutpoint, b: DatumOutpoint, ks: seq<Bytes>, i: nat)
    requires Sorted(ks) && i < |ks| && ks[i] == QuoteKey(q, b.txId, b.outputIndex)
    requires QuoteKey(q, a.txId, a.outputIndex) in ks[..i]
    ensures LexLt(OutpointKey(a), OutpointKey(b))
  {
    var j :| 0 <= j < i && ks[..i][j] == QuoteKey(q, a.txId, a.outputIndex);
    LexIrreflexive(q);
    LexConcat(q, OutpointKey(a), q, OutpointKey(b));
  }

  // While outpoints keep their datum, the lookup finds exactly the outpoints whose forward
  // row names the quote; none of them is unhonorable.
  lemma QuoteLookupMeans(t: Tables, q: QuoteId, o: DatumOutpoint)
    requires DatumsAgree(t)
    ensures QuoteKey(q, o.txId, o.outputIndex) in t.quotes <==>
            OutpointKey(o) in t.datums && t.datums[OutpointKey(o)].quoteId == Some(q)
    ensures QuoteKey(q, o.txId, o.outputIndex) in t.quotes ==> !t.datums[OutpointKey(o)].unhonorable
  {
    var k := OutpointKey(o);
    var x := QuoteKey(q, o.txId, o.outputIndex);
    assert x[16..] == k && k[..32] == o.txId && FromBE(k[32..]) == o.outputIndex;
    if x in t.quotes {
      var q' := t.datums[k].quoteId.value;
      QuoteKeyInjective(q, o.txId, o.outputIndex, q', o.txId, o.outputIndex);
    }
    if k in t.datums && t.datums[k].quoteId == Some(q) {
      assert x in ReverseKeys(k, t.datums[k]);
    }
  }
}
