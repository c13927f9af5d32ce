/** Settlement statistics, read through the address-keyed mirror. */
module Stats {
  import opened ByteStrings
  import opened Records
  import opened Keys
  import opened Database
  import opened Seqs
  import opened Paging
  import opened Queries

  // ---- Tallies ---------------------------------------------------------------

  datatype Tally = Tally(total: nat, succeeded: nat, refunded: nat, sumSettleBlocks: nat, last: Option<u64>)

  const NONE_YET := Tally(0, 0, 0, 0, None)

  function LatestOf(a: Option<u64>, b: Option<u64>): Option<u64> {
    if a.None? then b else if b.None? || a.value >= b.value then a else b
  }

  function Add(t: Tally, s: SettlementRecord): Tally {
    Tally(
      t.total + 1,
      t.succeeded + if s.outcome.Claimed? then 1 else 0,
      t.refunded + if s.outcome.Reclaimed? then 1 else 0,
      t.sumSettleBlocks + s.blockHeight,
      LatestOf(t.last, Some(s.blockHeight)))
  }

  function TallyOf(rows: seq<SettlementRecord>): Tally {
    if rows == [] then NONE_YET else Add(TallyOf(rows[..|rows| - 1]), rows[|rows| - 1])
  }

  function Merge(a: Tally, b: Tally): Tally {
    Tally(a.total + b.total, a.succeeded + b.succeeded, a.refunded + b.refunded,
          a.sumSettleBlocks + b.sumSettleBlocks, LatestOf(a.last, b.last))
  }

  function MergeAll(ts: seq<Tally>): Tally {
    if ts == [] then NONE_YET else Merge(MergeAll(ts[..|ts| - 1]), ts[|ts| - 1])
  }

  function Heights(rows: seq<SettlementRecord>): nat {
    if rows == [] then 0 else rows[0].blockHeight + Heights(rows[1..])
  }

  lemma {:induction false} HeightsSnoc(rows: seq<SettlementRecord>, s: SettlementRecord)
    ensures Heights(rows + [s]) == Heights(rows) + s.blockHeight
  {
    if rows == [] {
      assert rows + [s] == [s];
    } else {
      assert (rows + [s])[1..] == rows[1..] + [s];
      HeightsSnoc(rows[1..], s);
    }
  }

  // What a tally says about its rows.
  lemma {:induction false} TallyMeans(rows: seq<SettlementRecord>)
    ensures var t := TallyOf(rows);
            && t.total == |rows| && t.succeeded + t.refunded <= t.total
            && t.succeeded == |Filter(rows, (s: SettlementRecord) => s.outcome.Claimed?)|
            && t.refunded == |Filter(rows, (s: SettlementRecord) => s.outcome.Reclaimed?)|
            && t.sumSettleBlocks == Heights(rows)
            && (t.last.None? <==> rows == [])
            && (forall s :: s in rows ==> s.blockHeight <= t.last.value)
            && (rows != [] ==> exists s :: s in rows && s.blockHeight == t.last.value)
  {
    if rows != [] {
      var n := |rows| - 1;
      TallyMeans(rows[..n]);
      HeightsSnoc(rows[..n], rows[n]);
      assert rows == rows[..n] + [rows[n]];
    }
  }

  // ---- Grouped tallies -------------------------------------------------------

  function KeyIs(key: SettlementRecord -> Bytes, k: Bytes): SettlementRecord -> bool {
    s => key(s) == k
  }

  ghost function KeysIn(rows: seq<SettlementRecord>, key: SettlementRecord -> Bytes): set<Bytes> {
    set i | 0 <= i < |rows| :: key(rows[i])
  }

  // The accumulator of a grouping loop: each key seen, with the tally of its rows.
  ghost function Grouped(rows: seq<SettlementRecord>, key: SettlementRecord -> Bytes): map<Bytes, Tally> {
    map k | k in KeysIn(rows, key) :: TallyOf(Filter(rows, KeyIs(key, k)))
  }

  lemma TallySnoc(rows: seq<SettlementRecord>, s: SettlementRecord, key: SettlementRecord -> Bytes, k: Bytes)
    ensures var before := TallyOf(Filter(rows, KeyIs(key, k)));
            TallyOf(Filter(rows + [s], KeyIs(key, k))) == if key(s) == k then Add(before, s) else before
  {
    var f := Filter(rows, KeyIs(key, k));
    assert (rows + [s])[..|rows|] == rows;
    if key(s) == k {
      assert Filter(rows + [s], KeyIs(key, k)) == f + [s];
      assert (f + [s])[..|f|] == f;
    } else {
      assert Filter(rows + [s], KeyIs(key, k)) == f;
    }
  }

  lemma KeysInSnoc(rows: seq<SettlementRecord>, s: SettlementRecord, key: SettlementRecord -> Bytes)
    ensures KeysIn(rows + [s], key) == KeysIn(rows, key) + {key(s)}
  {
    assert (rows + [s])[|rows|] == s;
    assert forall i :: 0 <= i < |rows| ==> (rows + [s])[i] == rows[i];
  }

  lemma KeyNotSeen(rows: seq<SettlementRecord>, key: SettlementRecord -> Bytes, k: Bytes)
    requires k !in KeysIn(rows, key)
    ensures TallyOf(Filter(rows, KeyIs(key, k))) == NONE_YET
  {
    FilterNone(rows, KeyIs(key, k));
  }

  lemma GroupedSnoc(rows: seq<SettlementRecord>, s: SettlementRecord, key: SettlementRecord -> Bytes)
    ensures var g := Grouped(rows, key);
            Grouped(rows + [s], key) == g[key(s) := Add(if key(s) in g then g[key(s)] else NONE_YET, s)]
  {
    hide Filter, TallyOf, KeysIn, Add, KeyIs;
    var g, g' := Grouped(rows, key), Grouped(rows + [s], key);
    KeysInSnoc(rows, s, key);
    forall k | k in g' ensures g'[k] == if k == key(s) then Add(if k in g then g[k] else NONE_YET, s) else g[k] {
      TallySnoc(rows, s, key, k);
      if k !in g {
        KeyNotSeen(rows, key, k);
      }
    }
  }

  lemma {:induction false} MergeAllAdd(ts: seq<Tally>, i: nat, s: SettlementRecord)
    requires i < |ts|
    ensures MergeAll(ts[i := Add(ts[i], s)]) == Add(MergeAll(ts), s)
  {
    var n := |ts| - 1;
    var ts' := ts[i := Add(ts[i], s)];
    if i < n {
      MergeAllAdd(ts[..n], i, s);
      assert ts'[..n] == ts[..n][i := Add(ts[i], s)];
    } else {
      assert ts'[..n] == ts[..n];
    }
  }

  function TalliesAt(rows: seq<SettlementRecord>, key: SettlementRecord -> Bytes, ks: seq<Bytes>): seq<Tally> {
    seq(|ks|, i requires 0 <= i < |ks| => TallyOf(Filter(rows, KeyIs(key, ks[i]))))
  }

  lemma TalliesSnoc(rows: seq<SettlementRecord>, s: SettlementRecord, key: SettlementRecord -> Bytes, ks: seq<Bytes>, i: nat)
    requires NoRepeats(ks) && i < |ks| && ks[i] == key(s)
    ensures var before := TalliesAt(rows, key, ks);
            TalliesAt(rows + [s], key, ks) == before[i := Add(before[i], s)]
  {
    hide Filter, TallyOf, Add, KeyIs;
    forall j | 0 <= j < |ks|
      ensures TallyOf(Filter(rows + [s], KeyIs(key, ks[j]))) ==
              if j == i then Add(TallyOf(Filter(rows, KeyIs(key, ks[j]))), s) else TallyOf(Filter(rows, KeyIs(key, ks[j])))
    {
      TallySnoc(rows, s, key, ks[j]);
      assert j < i ==> ks[j] != ks[i];
      assert i < j ==> ks[i] != ks[j];
    }
  }

  // Splitting rows by key and adding the tallies up again loses nothing.
  lemma {:induction false} TalliesAddUp(rows: seq<SettlementRecord>, key: SettlementRecord -> Bytes, ks: seq<Bytes>)
    requires NoRepeats(ks) && forall s :: s in rows ==> key(s) in ks
    ensures MergeAll(TalliesAt(rows, key, ks)) == TallyOf(rows)
  {
    hide TalliesAt, MergeAll, Add, NoRepeats;
    if rows == [] {
      NothingAddsUp(key, ks);
    } else {
      var n := |rows| - 1;
      var s := rows[n];
      assert rows == rows[..n] + [s];
      TalliesAddUp(rows[..n], key, ks);
      assert s in rows;
      var i :| 0 <= i < |ks| && ks[i] == key(s);
      TalliesSnoc(rows[..n], s, key, ks, i);
      MergeAllAdd(TalliesAt(rows[..n], key, ks), i, s) by { TalliesCount(rows[..n], key, ks); }
    }
  }

  lemma TalliesCount(rows: seq<SettlementRecord>, key: SettlementRecord -> Bytes, ks: seq<Bytes>)
    ensures |TalliesAt(rows, key, ks)| == |ks|
  {}

  lemma NothingTallied(key: SettlementRecord -> Bytes, k: Bytes)
    ensures TallyOf(Filter([], KeyIs(key, k))) == NONE_YET
  {
    assert Filter([], KeyIs(key, k)) == [];
  }

  lemma TalliesFront(rows: seq<SettlementRecord>, key: SettlementRecord -> Bytes, ks: seq<Bytes>, k: Bytes)
    ensures TalliesAt(rows, key, ks + [k]) == TalliesAt(rows, key, ks) + [TallyOf(Filter(rows, KeyIs(key, k)))]
    ensures TalliesAt(rows, key, []) == []
  {
    hide Filter, TallyOf, KeyIs;
  }

  lemma MergeAllPlus(ts: seq<Tally>, t: Tally)
    ensures MergeAll(ts + [t]) == Merge(MergeAll(ts), t)
    ensures MergeAll([]) == NONE_YET
  {
    assert (ts + [t])[..|ts|] == ts;
  }

  lemma SameTally(t: Tally, u: Tally)
    requires t.total == u.total && t.succeeded == u.succeeded && t.refunded == u.refunded
    requires t.sumSettleBlocks == u.sumSettleBlocks && t.last == u.last
    ensures t == u
  {}

  lemma MergeFields(t: Tally, u: Tally)
    requires u == NONE_YET
    ensures var m := Merge(t, u);
            && m.total == t.total && m.succeeded == t.succeeded && m.refunded == t.refunded
            && m.sumSettleBlocks == t.sumSettleBlocks && m.last == t.last
  {}

  lemma MergeNothing(t: Tally)
    ensures Merge(t, NONE_YET) == t
  {
    hide Merge;
    MergeFields(t, NONE_YET);
    SameTally(Merge(t, NONE_YET), t);
  }

  lemma {:induction false} NothingAddsUp(key: SettlementRecord -> Bytes, ks: seq<Bytes>)
    ensures MergeAll(TalliesAt([], key, ks)) == NONE_YET
  {
    hide Filter, TallyOf, KeyIs, TalliesAt, Merge, MergeAll;
    MergeNothing(NONE_YET);
    if ks == [] {
      TalliesFront([], key, [], []);
      MergeAllPlus([], NONE_YET);
    } else {
      var front, k := ks[..|ks| - 1], ks[|ks| - 1];
      assert ks == front + [k];
      NothingAddsUp(key, front);
      NothingTallied(key, k);
      TalliesFront([], key, front, k);
      MergeAllPlus(TalliesAt([], key, front), NONE_YET);
    }
  }

  // ---- Reading through the mirror ---------------------------------------------

  // Behind a common `a`, the order of `c r` is that of `c a r`.
  lemma SwapLexLt(a: Bytes, c: Bytes, r: Bytes, c': Bytes, r': Bytes)
    requires |c| == |c'| && (LexLt(c, c') || (c == c' && LexLt(r, r')))
    ensures LexLt(c + (a + r), c' + (a + r'))
  {
    hide LexLt;
    LexIrreflexive(a);
    LexConcat(a, r, a, r');
    LexConcat(c, a + r, c', a + r');
  }

  lemma UnprefixLexLt(a: Bytes, c: Bytes, r: Bytes, c': Bytes, r': Bytes)
    requires |c| == |c'| && LexLt(a + (c + r), a + (c' + r'))
    ensures LexLt(c, c') || (c == c' && LexLt(r, r'))
  {
    hide LexLt;
    LexIrreflexive(a);
    LexConcat(a, c + r, a, c' + r');
    LexConcat(c, r, c', r');
  }

  lemma SwapKeepsOrder(k: Bytes, k': Bytes)
    requires |k| == |k'| == 104 && k[..32] == k'[..32] && LexLt(k, k')
    ensures LexLt(SwapKey(k), SwapKey(k'))
  {
    hide LexLt;
    Reassemble(k);
    Reassemble(k');
    UnprefixLexLt(k[..32], k[32..64], k[64..], k'[32..64], k'[64..]);
    SwapLexLt(k[..32], k[32..64], k[64..], k'[32..64], k'[64..]);
  }

  lemma Reassemble(k: Bytes)
    requires |k| == 104
    ensures k == k[..32] + (k[32..64] + k[64..])
    ensures SwapKey(k) == k[32..64] + (k[..32] + k[64..])
  {}

  function Swapped(ks: seq<Bytes>): seq<Bytes>
    requires forall k :: k in ks ==> |k| == 104
  {
    seq(|ks|, i requires 0 <= i < |ks| => SwapKey(ks[i]))
  }

  // The mirror keys under an address (and contract), swapped, are the keys of its settlements.
  lemma MirrorKeyOf(m: map<Bytes, SettlementRecord>, address: Hash, contract: Option<Hash>, q: Bytes)
    requires forall k :: k in m ==> k == ContractKey(m[k])
    requires q in KeysWithPrefix(Mirror(m), if contract.Some? then address + contract.value else address)
    ensures |q| == 104 && q[..32] == address
    ensures SwapKey(q) in KeysHolding(m, SettlementMatching(address, contract, None))
  {
    hide SettlementKey;
    var k :| k in m && q == MirrorKey(m[k]);
    MirrorSwap(m[k]);
    if contract.Some? {
      assert q[..64] == address + contract.value;
      assert q[32..64] == contract.value;
      assert q[..32] == (address + contract.value)[..32];
    }
  }

  lemma MirrorKeyFor(m: map<Bytes, SettlementRecord>, address: Hash, contract: Option<Hash>, k: Bytes) returns (q: Bytes)
    requires forall k :: k in m ==> k == ContractKey(m[k])
    requires k in KeysHolding(m, SettlementMatching(address, contract, None))
    ensures q in KeysWithPrefix(Mirror(m), if contract.Some? then address + contract.value else address)
    ensures |q| == 104 && SwapKey(q) == k
  {
    hide SettlementKey;
    q := MirrorKey(m[k]);
    MirrorSwap(m[k]);
    assert q in Mirror(m);
    assert q == q[..32] + q[32..64] + q[64..];
  }

  lemma MirrorScan(m: map<Bytes, SettlementRecord>, address: Hash, contract: Option<Hash>)
    requires forall k :: k in m ==> k == ContractKey(m[k])
    ensures var ks := Ascending(KeysWithPrefix(Mirror(m), if contract.Some? then address + contract.value else address));
            && (forall i :: 0 <= i < |ks| ==> |ks[i]| == 104 && ks[i][..32] == address)
            && (forall k :: k in ks ==> |k| == 104)
            && RowsOf(m, Swapped(ks)) == FullScan(m, SettlementMatching(address, contract, None))
  {
    hide Ascending, Mirror, KeysWithPrefix, KeysHolding, SwapKey, RowsOf, FullScan, LexLt, ContractKey;
    var p := if contract.Some? then address + contract.value else address;
    var ks := Ascending(KeysWithPrefix(Mirror(m), p));
    var want := KeysHolding(m, SettlementMatching(address, contract, None));
    forall q | q in ks ensures |q| == 104 && q[..32] == address && SwapKey(q) in want {
      MirrorKeyOf(m, address, contract, q);
    }
    assert forall i :: 0 <= i < |ks| ==> ks[i] in ks;
    var swapped := Swapped(ks);
    forall i, j | 0 <= i < j < |swapped| ensures LexLt(swapped[i], swapped[j]) {
      SwapKeepsOrder(ks[i], ks[j]);
    }
    forall k | k in want ensures k in swapped {
      var q := MirrorKeyFor(m, address, contract, k);
      var i :| 0 <= i < |ks| && ks[i] == q;
      assert swapped[i] == k;
    }
    AscendingUnique(swapped, Ascending(want));
    FullScanRows(m, SettlementMatching(address, contract, None));
  }

  // The settlements of an address, found through the mirror and read from the contract table.
  method ReadThroughMirror(db: Db, address: Hash, contract: Option<Hash>) returns (rows: seq<SettlementRecord>)
    requires db.Valid()
    ensures rows == FullScan(db.settlementByContract, SettlementMatching(address, contract, None))
  {
    hide Ascending, Mirror, KeysWithPrefix, KeysBetween, FullScan, RowsOf;
    var m := db.settlementByContract;
    var p: Bytes := if contract.Some? then address + contract.value else address;
    var n := 104 - |p|;
    MirrorShape(m);
    PrefixKeys(db.settlementByAddress, p, n);
    MirrorScan(m, address, contract);
    var ks := Scan(db.settlementByAddress, p + Fill(0, n), p + Fill(0xFF, n));
    var contractKeys: seq<Bytes> := [];
    for i := 0 to |ks|
      invariant |contractKeys| == i && forall j :: 0 <= j < i ==> contractKeys[j] == SwapKey(ks[j])
    {
      if |ks[i]| == 104 {
        contractKeys := contractKeys + [ks[i][32..64] + address + ks[i][64..72] + ks[i][72..]];
      }
    }
    assert contractKeys == Swapped(ks);
    rows := ReadRows(m, contractKeys);
  }

  lemma MirrorShape(m: map<Bytes, SettlementRecord>)
    ensures forall q :: q in Mirror(m) ==> |q| == 104
  {}

  // One accumulator entry per key, in the order the rows come.
  method Accumulate(rows: seq<SettlementRecord>, key: SettlementRecord -> Bytes) returns (acc: map<Bytes, Tally>)
    ensures acc == Grouped(rows, key)
  {
    hide Grouped;
    acc := map[];
    NothingGrouped(key);
    for i := 0 to |rows|
      invariant acc == Grouped(rows[..i], key)
    {
      var s := rows[i];
      GroupedSnoc(rows[..i], s, key);
      assert rows[..i + 1] == rows[..i] + [s];
      var t := Bump(if key(s) in acc then acc[key(s)] else NONE_YET, s);
      acc := acc[key(s) := t];
    }
    assert rows[..|rows|] == rows;
  }

  // The loop body's updates to one entry.
  method Bump(entry: Tally, s: SettlementRecord) returns (t: Tally)
    ensures t == Add(entry, s)
  {
    t := entry.(total := entry.total + 1);
    match s.outcome {
      case Claimed => t := t.(succeeded := t.succeeded + 1);
      case Reclaimed => t := t.(refunded := t.refunded + 1);
      case _ =>
    }
    t := t.(sumSettleBlocks := t.sumSettleBlocks + s.blockHeight);
    t := t.(last := Some(if t.last.Some? && t.last.value > s.blockHeight then t.last.value else s.blockHeight));
  }

  lemma NothingGrouped(key: SettlementRecord -> Bytes)
    ensures Grouped([], key) == map[]
  {}

  // ---- The two queries ---------------------------------------------------------

  datatype ContractStats = ContractStats(contractHash: Bytes, tally: Tally)

  // The counterparty and contract of an edge, compared in that order.
  datatype AttestationEdge = AttestationEdge(counterparty: Bytes, contractHash: Bytes, tally: Tally)

  function ContractOf(s: SettlementRecord): Bytes {
    s.contractHash
  }

  function EdgeOf(s: SettlementRecord): Bytes {
    s.counterparty + s.contractHash
  }

  ghost function Settlements(m: map<Bytes, SettlementRecord>, address: Hash, contract: Option<Hash>): seq<SettlementRecord> {
    FullScan(m, SettlementMatching(address, contract, None))
  }

  method ContractStatsOf(db: Db, address: Hash, contract: Option<Hash>) returns (out: seq<ContractStats>)
    requires db.Valid()
    ensures var rows := Settlements(db.settlementByContract, address, contract);
            var cs := Ascending(KeysIn(rows, ContractOf));
            && |out| == |cs|
            && forall i :: 0 <= i < |cs| ==> out[i] == ContractStats(cs[i], TallyOf(Filter(rows, KeyIs(ContractOf, cs[i]))))
  {
    hide Ascending, FullScan, Filter, TallyOf, KeyIs;
    var rows := ReadThroughMirror(db, address, contract);
    var acc := Accumulate(rows, ContractOf);
    var cs := Iterate(acc.Keys);
    assert acc.Keys == KeysIn(rows, ContractOf);
    out := [];
    for i := 0 to |cs|
      invariant |out| == i
      invariant forall j :: 0 <= j < i ==> out[j] == ContractStats(cs[j], TallyOf(Filter(rows, KeyIs(ContractOf, cs[j]))))
    {
      assert cs[i] in cs;
      out := out + [ContractStats(cs[i], acc[cs[i]])];
    }
  }

  method AttestationEdges(db: Db, address: Hash, contract: Option<Hash>) returns (out: seq<AttestationEdge>)
    requires db.Valid()
    ensures var rows := Settlements(db.settlementByContract, address, contract);
            var es := Ascending(KeysIn(rows, EdgeOf));
            && |out| == |es|
            && forall i :: 0 <= i < |es| ==>
                 |es[i]| == 64 && out[i] == AttestationEdge(es[i][..32], es[i][32..], TallyOf(Filter(rows, KeyIs(EdgeOf, es[i]))))
  {
    hide Ascending, FullScan, Filter, TallyOf, KeyIs;
    var rows := ReadThroughMirror(db, address, contract);
    var acc := Accumulate(rows, EdgeOf);
    var es := Iterate(acc.Keys);
    assert acc.Keys == KeysIn(rows, EdgeOf);
    out := [];
    for i := 0 to |es|
      invariant |out| == i
      invariant forall j :: 0 <= j < i ==>
        |es[j]| == 64 && out[j] == AttestationEdge(es[j][..32], es[j][32..], TallyOf(Filter(rows, KeyIs(EdgeOf, es[j]))))
    {
      assert es[i] in es;
      out := out + [AttestationEdge(es[i][..32], es[i][32..], acc[es[i]])];
    }
  }

  // The rows behind a statistics row are those of its contract, and those behind an edge the
  // ones with its counterparty and contract.
  function Under(contract: Bytes): SettlementRecord -> bool {
    (s: SettlementRecord) => s.contractHash == contract
  }

  function Between(counterparty: Hash, contract: Hash): SettlementRecord -> bool {
    (s: SettlementRecord) => s.counterparty == counterparty && s.contractHash == contract
  }

  lemma ContractRows(rows: seq<SettlementRecord>, contract: Bytes)
    ensures Filter(rows, KeyIs(ContractOf, contract)) == Filter(rows, Under(contract))
    ensures contract in KeysIn(rows, ContractOf) <==> exists s :: s in rows && s.contractHash == contract
  {
    forall s: SettlementRecord ensures KeyIs(ContractOf, contract)(s) == Under(contract)(s) {
      assert ContractOf(s) == s.contractHash;
    }
    FilterAlike(rows, KeyIs(ContractOf, contract), Under(contract));
    if contract in KeysIn(rows, ContractOf) {
      var s :| s in rows && ContractOf(s) == contract;
    }
    if s :| s in rows && s.contractHash == contract {
      assert ContractOf(s) in KeysIn(rows, ContractOf);
    }
  }

  lemma EdgeRows(rows: seq<SettlementRecord>, counterparty: Hash, contract: Hash)
    ensures Filter(rows, KeyIs(EdgeOf, counterparty + contract)) == Filter(rows, Between(counterparty, contract))
    ensures counterparty + contract in KeysIn(rows, EdgeOf) <==>
            exists s :: s in rows && s.counterparty == counterparty && s.contractHash == contract
  {
    var e := counterparty + contract;
    forall s: SettlementRecord ensures KeyIs(EdgeOf, e)(s) == Between(counterparty, contract)(s) {
      assert EdgeOf(s)[..32] == s.counterparty && EdgeOf(s)[32..] == s.contractHash;
      assert e[..32] == counterparty && e[32..] == contract;
    }
    FilterAlike(rows, KeyIs(EdgeOf, e), Between(counterparty, contract));
    if e in KeysIn(rows, EdgeOf) {
      var s :| s in rows && EdgeOf(s) == e;
    }
    if s :| s in rows && s.counterparty == counterparty && s.contractHash == contract {
      assert Between(counterparty, contract)(s) && EdgeOf(s) in KeysIn(rows, EdgeOf);
    }
  }

  lemma {:induction false} FilterAlike<T>(rows: seq<T>, p: T -> bool, q: T -> bool)
    requires forall x :: p(x) == q(x)
    ensures Filter(rows, p) == Filter(rows, q)
  {
    if rows != [] {
      FilterAlike(rows[..|rows| - 1], p, q);
    }
  }

  // ---- Conservation ------------------------------------------------------------

  // The settlements of one contract, whether asked for alone or among all contracts.
  lemma OneOfAll(m: map<Bytes, SettlementRecord>, address: Hash, c: Hash)
    ensures Filter(Settlements(m, address, None), KeyIs(ContractOf, c)) == Settlements(m, address, Some(c))
  {
    var all, one := SettlementMatching(address, None, None), SettlementMatching(address, Some(c), None);
    hide RowsOf, Ascending;
    FilterMeet(RowsOf(m, Ascending(m.Keys)), all, KeyIs(ContractOf, c), one);
  }

  // Conservation. For every address and contract, the edges of that contract add up to its
  // stats row: totals, successes, refunds and the latest height. The total is the length of
  // the unpaged settlement list.
  lemma EdgesAddUp(m: map<Bytes, SettlementRecord>, address: Hash, c: Hash)
    ensures var rows := Settlements(m, address, Some(c));
            var es := Ascending(KeysIn(rows, EdgeOf));
            && MergeAll(TalliesAt(rows, EdgeOf, es)) == TallyOf(rows)
            && TallyOf(rows) == TallyOf(Filter(Settlements(m, address, None), KeyIs(ContractOf, c)))
            && TallyOf(rows).total == |SettlementListing(m, address, Some(c), None)|
  {
    hide Ascending, FullScan, StableSort;
    var rows := Settlements(m, address, Some(c));
    var es := Ascending(KeysIn(rows, EdgeOf));
    forall i, j | 0 <= i < j < |es| ensures es[i] != es[j] {
      LexIrreflexive(es[i]);
    }
    TalliesAddUp(rows, EdgeOf, es);
    OneOfAll(m, address, c);
    TallyMeans(rows);
    RowCursorOrder();
    StableSortMeans(rows, SettlementPlace, RowCursorLt);
    assert |multiset(StableSort(rows, SettlementPlace, RowCursorLt))| == |multiset(rows)|;
  }
}
