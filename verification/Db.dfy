/**
 The store: thirteen tables changed in place by the block apply, the reorg
 rewind and the schema migration. `Valid` is the index agreement: the four
 HTLC indexes and the settlement mirror are exactly what the rows imply.
 */
module Database {
  import opened ByteStrings
  import opened Records
  import opened Keys
  import opened Folds
  import opened Tables
  import opened Seqs

  // ---- Index agreement ------------------------------------------------------

  // The keys an index must hold for the records of the primary table.
  ghost function Index(m: map<Bytes, HtlcRecord>, key: HtlcRecord -> Bytes): set<Bytes> {
    set k | k in m :: key(m[k])
  }

  ghost function Mirror(m: map<Bytes, SettlementRecord>): set<Bytes> {
    set k | k in m :: MirrorKey(m[k])
  }

  ghost predicate Separates(key: HtlcRecord -> Bytes) {
    forall r, r' :: key(r) == key(r') ==> HtlcKey(r) == HtlcKey(r')
  }

  lemma IndexKeysSeparate()
    ensures Separates(SenderKey) && Separates(ReceiverKey) && Separates(RecordHashlockKey) && Separates(RecordStateKey)
  {
    hide AddressHeightKey, HashlockKey, StateKey, PrimaryKey;
    forall r, r'
      ensures SenderKey(r) == SenderKey(r') ==> HtlcKey(r) == HtlcKey(r')
      ensures ReceiverKey(r) == ReceiverKey(r') ==> HtlcKey(r) == HtlcKey(r')
      ensures RecordHashlockKey(r) == RecordHashlockKey(r') ==> HtlcKey(r) == HtlcKey(r')
      ensures RecordStateKey(r) == RecordStateKey(r') ==> HtlcKey(r) == HtlcKey(r')
    {
      var (t, i, h) := (r.lockTxId, r.outputIndex, r.LockHeight());
      var (t', i', h') := (r'.lockTxId, r'.outputIndex, r'.LockHeight());
      AddressHeightKeyInjective(r.params.sender, h, t, i, r'.params.sender, h', t', i');
      AddressHeightKeyInjective(r.params.receiver, h, t, i, r'.params.receiver, h', t', i');
      HashlockKeyInjective(r.params.hashLock, t, i, r'.params.hashLock, t', i');
      StateKeyInjective(r.state, h, t, i, r'.state, h', t', i');
    }
  }

  lemma IndexWithout(m: map<Bytes, HtlcRecord>, k: Bytes, key: HtlcRecord -> Bytes)
    requires Separates(key) && k in m && forall x :: x in m ==> x == HtlcKey(m[x])
    ensures Index(m - {k}, key) == Index(m, key) - {key(m[k])}
  {
    var m' := m - {k};
    forall x | x in m && x != k ensures key(m[x]) != key(m[k]) {
      assert HtlcKey(m[x]) != HtlcKey(m[k]);
    }
    forall q | q in Index(m, key) && q != key(m[k]) ensures q in Index(m', key) {
      var x :| x in m && q == key(m[x]);
      assert x in m' && m'[x] == m[x];
    }
  }

  lemma IndexWith(m: map<Bytes, HtlcRecord>, k: Bytes, r: HtlcRecord, key: HtlcRecord -> Bytes)
    requires k !in m
    ensures Index(m[k := r], key) == Index(m, key) + {key(r)}
  {
    var m' := m[k := r];
    assert k in m' && m'[k] == r;
    forall q | q in Index(m, key) ensures q in Index(m', key) {
      var x :| x in m && q == key(m[x]);
      assert x in m' && m'[x] == m[x];
    }
  }

  lemma PutAfterRemove<V>(m: map<Bytes, V>, k: Bytes, v: V)
    ensures (m - {k})[k := v] == m[k := v]
  {}

  // The primary table and its four indexes.
  ghost predicate Agree(m: map<Bytes, HtlcRecord>, bySender: set<Bytes>, byReceiver: set<Bytes>,
                        byHashlock: set<Bytes>, byState: set<Bytes>)
  {
    && (forall k :: k in m ==> k == HtlcKey(m[k]))
    && bySender == Index(m, SenderKey)
    && byReceiver == Index(m, ReceiverKey)
    && byHashlock == Index(m, RecordHashlockKey)
    && byState == Index(m, RecordStateKey)
  }

  lemma AgreeWith(m: map<Bytes, HtlcRecord>, a: set<Bytes>, b: set<Bytes>, c: set<Bytes>, d: set<Bytes>, r: HtlcRecord)
    requires Agree(m, a, b, c, d) && HtlcKey(r) !in m
    ensures Agree(m[HtlcKey(r) := r], a + {SenderKey(r)}, b + {ReceiverKey(r)}, c + {RecordHashlockKey(r)}, d + {RecordStateKey(r)})
  {
    IndexWith(m, HtlcKey(r), r, SenderKey);
    IndexWith(m, HtlcKey(r), r, ReceiverKey);
    IndexWith(m, HtlcKey(r), r, RecordHashlockKey);
    IndexWith(m, HtlcKey(r), r, RecordStateKey);
  }

  lemma AgreeWithout(m: map<Bytes, HtlcRecord>, a: set<Bytes>, b: set<Bytes>, c: set<Bytes>, d: set<Bytes>, k: Bytes)
    requires Agree(m, a, b, c, d) && k in m
    ensures Agree(m - {k}, a - {SenderKey(m[k])}, b - {ReceiverKey(m[k])}, c - {RecordHashlockKey(m[k])}, d - {RecordStateKey(m[k])})
  {
    IndexKeysSeparate();
    IndexWithout(m, k, SenderKey);
    IndexWithout(m, k, ReceiverKey);
    IndexWithout(m, k, RecordHashlockKey);
    IndexWithout(m, k, RecordStateKey);
  }

  lemma MirrorWith(m: map<Bytes, SettlementRecord>, s: SettlementRecord)
    requires forall k :: k in m ==> k == ContractKey(m[k])
    ensures Mirror(m[ContractKey(s) := s]) == Mirror(m) + {MirrorKey(s)}
  {
    hide SettlementKey, SwapKey;
    var c := ContractKey(s);
    var m' := m[c := s];
    if c in m {
      MirrorSwap(s);
      MirrorSwap(m[c]);
    }
    forall q | q in Mirror(m) + {MirrorKey(s)} ensures q in Mirror(m') {
      if q == MirrorKey(s) {
        assert c in m' && m'[c] == s;
      } else {
        var k :| k in m && q == MirrorKey(m[k]);
        assert k in m' && m'[k] == m[k];
      }
    }
  }

  lemma MirrorWithout(m: map<Bytes, SettlementRecord>, cut: nat)
    requires forall k :: k in m ==> k == ContractKey(m[k])
    ensures Mirror(Keep(m, SettlementHeight, cut)) == set q | q in Mirror(m) && KeyHeight(q, 64) <= cut
  {
    forall k | k in m ensures KeyHeight(MirrorKey(m[k]), 64) == SettlementHeight(k, m[k]) {
      assert KeyHeight(ContractKey(m[k]), 64) == m[k].blockHeight;
      assert KeyHeight(MirrorKey(m[k]), 64) == m[k].blockHeight;
    }
    var kept := Keep(m, SettlementHeight, cut);
    forall q | q in Mirror(m) && KeyHeight(q, 64) <= cut ensures q in Mirror(kept) {
      var k :| k in m && q == MirrorKey(m[k]);
      assert k in kept;
    }
  }

  // ---- Collect, then remove -------------------------------------------------

  // The keys of the rows a wipe removes from a table, collected by a full scan.
  method VictimsAbove<V>(m: map<Bytes, V>, height: (Bytes, V) -> nat, cut: nat) returns (victims: seq<Bytes>)
    ensures Sorted(victims)
    ensures forall k :: k in victims <==> k in m && height(k, m[k]) > cut
  {
    victims := [];
    var ks := Iterate(m.Keys);
    ghost var above := k => k in m && height(k, m[k]) > cut;
    for i := 0 to |ks|
      invariant victims == Filter(ks[..i], above)
    {
      FilterSnoc(ks, above, i);
      if height(ks[i], m[ks[i]]) > cut {
        victims := victims + [ks[i]];
      }
    }
    assert ks[..|ks|] == ks;
    FilterSorted(ks, above);
    forall k ensures k in victims <==> k in m && height(k, m[k]) > cut {
      FilterIn(ks, above, k);
    }
  }

  method RemoveRows<V>(m: map<Bytes, V>, victims: seq<Bytes>) returns (m': map<Bytes, V>)
    ensures m' == m - set k | k in victims
  {
    m' := m;
    for i := 0 to |victims|
      invariant m' == m - set k | k in victims[..i]
    {
      m' := m' - {victims[i]};
      assert victims[..i + 1] == victims[..i] + [victims[i]];
    }
    assert victims[..|victims|] == victims;
  }

  lemma RemovedIsKeep<V>(m: map<Bytes, V>, victims: seq<Bytes>, height: (Bytes, V) -> nat, cut: nat)
    requires forall k :: k in victims <==> k in m && height(k, m[k]) > cut
    ensures m - (set k | k in victims) == Keep(m, height, cut)
  {}

  ghost function ReverseRows(rows: map<Bytes, OutputDatumRecord>, ks: seq<Bytes>): set<Bytes> {
    set k, q | k in ks && k in rows && q in ReverseKeys(k, rows[k]) :: q
  }

  // A wiped table: its victims are collected first, then removed.
  method WipeRows<V>(m: map<Bytes, V>, height: (Bytes, V) -> nat, cut: nat) returns (m': map<Bytes, V>)
    ensures m' == Keep(m, height, cut)
  {
    var victims := VictimsAbove(m, height, cut);
    RemovedIsKeep(m, victims, height, cut);
    m' := RemoveRows(m, victims);
  }

  // ---- Migration ------------------------------------------------------------

  // A checkpoint as opening the store leaves it.
  function Migrated(c: Checkpoint): Checkpoint {
    match c
    case Missing => Stored(DEFAULT_META.(schemaVersion := SCHEMA_VERSION))
    case Undecodable => Stored(DEFAULT_META.(schemaVersion := SCHEMA_VERSION))
    case Stored(m) =>
      if m.schemaVersion >= SCHEMA_VERSION then c
      else Stored(FollowerMeta(0, ZERO_HASH, false, m.startedAt, SCHEMA_VERSION))
  }

  class Db {
    var chainTip: Checkpoint
    var blockMeta: map<Bytes, BlockMeta>
    var txByAddress: map<Bytes, ActivityValue>
    var htlcFull: map<Bytes, HtlcRecord>
    var htlcBySender: set<Bytes>
    var htlcByReceiver: set<Bytes>
    var htlcByHashlock: set<Bytes>
    var htlcByState: set<Bytes>
    var settlementByContract: map<Bytes, SettlementRecord>
    var settlementByAddress: set<Bytes>
    var spentBy: map<Bytes, SpentByEntry>
    var outputDatum: map<Bytes, OutputDatumRecord>
    var datumByQuoteId: set<Bytes>

    ghost function Data(): Tables
      reads this
    {
      Tables(htlcFull, settlementByContract, txByAddress, spentBy, outputDatum, datumByQuoteId, blockMeta)
    }

    ghost function Contents(): Store
      reads this
    {
      Store(Data(), chainTip)
    }

    ghost predicate HtlcsAgree()
      reads this`htlcFull, this`htlcBySender, this`htlcByReceiver, this`htlcByHashlock, this`htlcByState
    {
      Agree(htlcFull, htlcBySender, htlcByReceiver, htlcByHashlock, htlcByState)
    }

    ghost predicate SettlementsAgree()
      reads this`settlementByContract, this`settlementByAddress
    {
      && (forall k :: k in settlementByContract ==> k == ContractKey(settlementByContract[k]))
      && settlementByAddress == Mirror(settlementByContract)
    }

    ghost predicate Valid()
      reads this
    {
      HtlcsAgree() && SettlementsAgree()
    }

    // ---- Opening ------------------------------------------------------------

    // A store file that did not exist before.
    constructor ()
      ensures Valid()
      ensures Contents() == Store(EMPTY, Migrated(Missing))
    {
      blockMeta, txByAddress, htlcFull := map[], map[], map[];
      htlcBySender, htlcByReceiver, htlcByHashlock, htlcByState := {}, {}, {}, {};
      settlementByContract, settlementByAddress := map[], {};
      spentBy, outputDatum, datumByQuoteId := map[], map[], {};
      chainTip := Missing;
      new;
      MigrateSchema();
    }

    // The process starts again over the same file.
    method Reopen()
      modifies this`chainTip
      ensures chainTip == Migrated(old(chainTip))
    {
      MigrateSchema();
    }

    method MigrateSchema()
      modifies this`chainTip
      ensures chainTip == Migrated(old(chainTip))
    {
      var persisted: Option<FollowerMeta> :=
        match chainTip
        case Stored(m) => Some(m)
        case Undecodable => Some(DEFAULT_META.(schemaVersion := 0))
        case Missing => None;
      match persisted
      case None =>
        SaveMeta(DEFAULT_META.(schemaVersion := SCHEMA_VERSION));
      case Some(meta) =>
        if meta.schemaVersion < SCHEMA_VERSION {
          SaveMeta(FollowerMeta(0, ZERO_HASH, false, meta.startedAt, SCHEMA_VERSION));
        }
    }

    // ---- Checkpoint ---------------------------------------------------------

    method LoadMeta() returns (r: Result<FollowerMeta>)
      ensures r == match chainTip case Stored(m) => Ok(m) case Missing => Ok(DEFAULT_META) case Undecodable => Err
    {
      match chainTip
      case Stored(m) => r := Ok(m);
      case Missing => r := Ok(DEFAULT_META);
      case Undecodable => r := Err;
    }

    method SaveMeta(meta: FollowerMeta)
      modifies this`chainTip
      ensures chainTip == Stored(meta)
    {
      chainTip := Stored(meta);
    }

    // ---- One block ----------------------------------------------------------

    method ApplyBlockEvents(ev: BlockEvents)
      requires Valid()
      modifies this
      ensures Valid()
      ensures Contents() == Apply(old(Contents()), ev)
    {
      hide PutAll, HtlcFold, Agree, Mirror, ContractKey;
      hide HtlcOps, SettlementPuts, ActivityPuts, SpentByPuts, DatumPuts, BlockPuts, QuoteKeys;
      ApplyHtlcEvents(ev);
      ApplyRowEvents(ev);
      chainTip := Stored(FollowerMeta(ev.height, ev.blockId, ev.fullScanComplete, ev.startedAt, SCHEMA_VERSION));
    }

    // Everything a block writes outside the HTLC tables.
    method ApplyRowEvents(ev: BlockEvents)
      requires SettlementsAgree()
      modifies this`blockMeta, this`settlementByContract, this`settlementByAddress, this`txByAddress, this`spentBy,
               this`outputDatum, this`datumByQuoteId
      ensures SettlementsAgree()
      ensures blockMeta == PutAll(old(blockMeta), BlockPuts(ev))
      ensures settlementByContract == PutAll(old(settlementByContract), SettlementPuts(ev))
      ensures txByAddress == PutAll(old(txByAddress), ActivityPuts(ev))
      ensures spentBy == PutAll(old(spentBy), SpentByPuts(ev))
      ensures outputDatum == PutAll(old(outputDatum), DatumPuts(ev))
      ensures datumByQuoteId == old(datumByQuoteId) + QuoteKeys(DatumPuts(ev))
    {
      hide PutAll, Mirror, ContractKey, SettlementPuts, ActivityPuts, SpentByPuts, DatumPuts, BlockPuts, QuoteKeys;
      WriteBlockMeta(ev);
      ApplySettlements(ev);
      ApplyActivity(ev);
      ApplySpentBy(ev);
      ApplyOutputDatums(ev);
    }

    method WriteBlockMeta(ev: BlockEvents)
      modifies this`blockMeta
      ensures blockMeta == PutAll(old(blockMeta), BlockPuts(ev))
    {
      PutOne(blockMeta, Put(BlockKey(ev.height), BlockMeta(ev.blockId, ev.txCount, ev.timestamp)));
      blockMeta := blockMeta[BlockKey(ev.height) := BlockMeta(ev.blockId, ev.txCount, ev.timestamp)];
    }

    method ApplySettlements(ev: BlockEvents)
      requires SettlementsAgree()
      modifies this`settlementByContract, this`settlementByAddress
      ensures SettlementsAgree()
      ensures settlementByContract == PutAll(old(settlementByContract), SettlementPuts(ev))
    {
      ghost var puts := SettlementPuts(ev);
      for i := 0 to |ev.settlements|
        invariant SettlementsAgree()
        invariant settlementByContract == PutAll(old(settlementByContract), puts[..i])
      {
        PutAllSnoc(old(settlementByContract), puts, i);
        WriteSettlement(ev.settlements[i]);
      }
      assert puts[..|ev.settlements|] == puts;
    }

    method ApplyActivity(ev: BlockEvents)
      modifies this`txByAddress
      ensures txByAddress == PutAll(old(txByAddress), ActivityPuts(ev))
    {
      ghost var puts := ActivityPuts(ev);
      for i := 0 to |ev.activity|
        invariant txByAddress == PutAll(old(txByAddress), puts[..i])
      {
        PutAllSnoc(old(txByAddress), puts, i);
        WriteActivity(ev.activity[i], ev.height);
      }
      assert puts[..|ev.activity|] == puts;
    }

    method ApplySpentBy(ev: BlockEvents)
      modifies this`spentBy
      ensures spentBy == PutAll(old(spentBy), SpentByPuts(ev))
    {
      ghost var puts := SpentByPuts(ev);
      for i := 0 to |ev.spentBy|
        invariant spentBy == PutAll(old(spentBy), puts[..i])
      {
        PutAllSnoc(old(spentBy), puts, i);
        WriteSpentBy(ev.spentBy[i]);
      }
      assert puts[..|ev.spentBy|] == puts;
    }

    method ApplyOutputDatums(ev: BlockEvents)
      modifies this`outputDatum, this`datumByQuoteId
      ensures outputDatum == PutAll(old(outputDatum), DatumPuts(ev))
      ensures datumByQuoteId == old(datumByQuoteId) + QuoteKeys(DatumPuts(ev))
    {
      ghost var puts := DatumPuts(ev);
      for i := 0 to |ev.outputDatums|
        invariant outputDatum == PutAll(old(outputDatum), puts[..i])
        invariant datumByQuoteId == old(datumByQuoteId) + QuoteKeys(puts[..i])
      {
        PutAllSnoc(old(outputDatum), puts, i);
        assert puts[..i + 1] == puts[..i] + [puts[i]];
        WriteOutputDatum(ev.outputDatums[i], ev.height);
      }
      assert puts[..|ev.outputDatums|] == puts;
    }

    // The first two event loops: every lock of the block, then every spend.
    method ApplyHtlcEvents(ev: BlockEvents)
      requires HtlcsAgree()
      modifies this`htlcFull, this`htlcBySender, this`htlcByReceiver, this`htlcByHashlock, this`htlcByState
      ensures HtlcsAgree()
      ensures htlcFull == HtlcFold(old(htlcFull), HtlcOps(ev))
    {
      hide Agree;
      ghost var m := htlcFull;
      ghost var ops := HtlcOps(ev);
      var n := |ev.locks|;
      for i := 0 to n
        invariant HtlcsAgree()
        invariant htlcFull == HtlcFold(m, ops[..i])
      {
        HtlcFoldSnoc(m, ops, i);
        assert ops[i] == HtlcOp.Lock(ev.locks[i]);
        UpsertHtlc(ev.locks[i]);
      }
      for i := 0 to |ev.spends|
        invariant HtlcsAgree()
        invariant htlcFull == HtlcFold(m, ops[..n + i])
      {
        HtlcFoldSnoc(m, ops, n + i);
        assert ops[n + i] == HtlcOp.Spend(ev.spends[i], ev.height);
        AdvanceHtlc(ev.spends[i], ev.height);
      }
      assert ops[..n + |ev.spends|] == ops;
    }

    method UpsertHtlc(rec: HtlcRecord)
      requires HtlcsAgree()
      modifies this`htlcFull, this`htlcBySender, this`htlcByReceiver, this`htlcByHashlock, this`htlcByState
      ensures HtlcsAgree()
      ensures htlcFull == old(htlcFull)[HtlcKey(rec) := rec]
    {
      hide Agree, Index, HtlcKey, SenderKey, ReceiverKey, RecordHashlockKey, RecordStateKey;
      var key := HtlcKey(rec);
      PutAfterRemove(htlcFull, key, rec);
      if key in htlcFull {
        ForgetHtlc(key, htlcFull[key]);
      }
      AgreeWith(htlcFull, htlcBySender, htlcByReceiver, htlcByHashlock, htlcByState, rec);
      htlcFull := htlcFull[key := rec];
      htlcBySender := htlcBySender + {SenderKey(rec)};
      htlcByReceiver := htlcByReceiver + {ReceiverKey(rec)};
      htlcByHashlock := htlcByHashlock + {RecordHashlockKey(rec)};
      htlcByState := htlcByState + {RecordStateKey(rec)};
    }

    method ForgetHtlc(key: Bytes, rec: HtlcRecord)
      requires HtlcsAgree()
      requires key in htlcFull && htlcFull[key] == rec
      modifies this`htlcFull, this`htlcBySender, this`htlcByReceiver, this`htlcByHashlock, this`htlcByState
      ensures HtlcsAgree()
      ensures htlcFull == old(htlcFull) - {key}
    {
      hide Agree, Index, HtlcKey, SenderKey, ReceiverKey, RecordHashlockKey, RecordStateKey;
      AgreeWithout(htlcFull, htlcBySender, htlcByReceiver, htlcByHashlock, htlcByState, key);
      htlcFull := htlcFull - {key};
      htlcBySender := htlcBySender - {SenderKey(rec)};
      htlcByReceiver := htlcByReceiver - {ReceiverKey(rec)};
      htlcByHashlock := htlcByHashlock - {RecordHashlockKey(rec)};
      htlcByState := htlcByState - {RecordStateKey(rec)};
    }

    method AdvanceHtlc(spend: HtlcSpend, height: u64)
      requires HtlcsAgree()
      modifies this`htlcFull, this`htlcBySender, this`htlcByReceiver, this`htlcByHashlock, this`htlcByState
      ensures HtlcsAgree()
      ensures htlcFull == HtlcStep(old(htlcFull), HtlcOp.Spend(spend, height))
      ensures var k := SpendKey(spend);
              k in old(htlcFull) && !old(htlcFull)[k].Settled() ==>
                && k in htlcFull && htlcFull[k].lastIndexedHeight == height
                && match spend.arm
                   case Claim(p, t, i) => htlcFull[k].state == Claimed && htlcFull[k].claim == Some(HtlcClaim(t, p, height, i))
                   case Reclaim(t, i) => htlcFull[k].state == Reclaimed && htlcFull[k].reclaim == Some(HtlcReclaim(t, height, i))
    {
      var key := SpendKey(spend);
      if key !in htlcFull {
        return;
      }
      var rec := htlcFull[key];
      if rec.state.Claimed? || rec.state.Reclaimed? {
        return;
      }
      ForgetHtlc(key, rec);
      match spend.arm {
        case Claim(preimage, spendingTxId, inputIndex) =>
          rec := rec.(state := Claimed, claim := Some(HtlcClaim(spendingTxId, preimage, height, inputIndex)));
        case Reclaim(spendingTxId, inputIndex) =>
          rec := rec.(state := Reclaimed, reclaim := Some(HtlcReclaim(spendingTxId, height, inputIndex)));
      }
      rec := rec.(lastIndexedHeight := height);
      UpsertHtlc(rec);
    }

    method WriteSettlement(s: SettlementRecord)
      requires SettlementsAgree()
      modifies this`settlementByContract, this`settlementByAddress
      ensures SettlementsAgree()
      ensures settlementByContract == old(settlementByContract)[ContractKey(s) := s]
    {
      MirrorWith(settlementByContract, s);
      settlementByContract := settlementByContract[
        SettlementKey(s.contractHash, s.observerAddress, s.blockHeight, s.txId) := s];
      settlementByAddress := settlementByAddress + {SettlementKey(s.observerAddress, s.contractHash, s.blockHeight, s.txId)};
    }

    method WriteActivity(a: AddressActivity, height: u64)
      modifies this`txByAddress
      ensures txByAddress == old(txByAddress)[ActivityPut(a, height).key := ActivityPut(a, height).value]
    {
      var dir := if a.isInput then DIR_INPUT_FROM else DIR_OUTPUT_TO;
      txByAddress := txByAddress[
        ActivityKey(a.address, height, a.txId, dir) := ActivityValue(a.amount, a.isCoinbase, a.counterparties)];
    }

    method WriteSpentBy(s: SpentByEntry)
      modifies this`spentBy
      ensures spentBy == old(spentBy)[SpentByKey(s) := s]
    {
      spentBy := spentBy[PrimaryKey(s.prevTxId, s.outputIndex) := s];
    }

    method WriteOutputDatum(od: OutputDatum, height: u64)
      modifies this`outputDatum, this`datumByQuoteId
      ensures var rec := OutputDatumRecord(od.quoteId, od.unhonorable, height);
              && outputDatum == old(outputDatum)[DatumKey(od) := rec]
              && datumByQuoteId == old(datumByQuoteId) + ReverseKeys(DatumKey(od), rec)
    {
      outputDatum := outputDatum[
        PrimaryKey(od.txId, od.outputIndex) := OutputDatumRecord(od.quoteId, od.unhonorable, height)];
      match od.quoteId
      case Some(q) => datumByQuoteId := datumByQuoteId + {QuoteKey(q, od.txId, od.outputIndex)};
      case None =>
    }

    // ---- One rewind ---------------------------------------------------------

    method WipeAbove(keepBelow: u64)
      requires Valid()
      modifies this
      ensures Valid()
      ensures Contents() == Store(WipeData(old(Data()), keepBelow), old(chainTip))
    {
      hide Keep, DroppedQuotes, Agree, Mirror, ContractKey, Index;
      WipeHtlcsAbove(keepBelow);
      blockMeta := WipeRows(blockMeta, BlockHeight, keepBelow);
      txByAddress := WipeRows(txByAddress, ActivityHeight, keepBelow);
      WipeSettlementsAbove(keepBelow);
      spentBy := WipeRows(spentBy, SpentByHeight, keepBelow);
      WipeOutputDatumsAbove(keepBelow);
    }

    method WipeHtlcsAbove(keepBelow: u64)
      requires HtlcsAgree()
      modifies this`htlcFull, this`htlcBySender, this`htlcByReceiver, this`htlcByHashlock, this`htlcByState
      ensures HtlcsAgree()
      ensures htlcFull == Keep(old(htlcFull), HtlcHeight, keepBelow)
    {
      hide Agree;
      ghost var m := htlcFull;
      var victims := VictimsAbove(htlcFull, HtlcHeight, keepBelow);
      for i := 0 to |victims|
        invariant HtlcsAgree()
        invariant htlcFull == m - set k | k in victims[..i]
      {
        assert victims[i] in victims && victims[i] !in victims[..i] by {
          forall j | 0 <= j < i ensures victims[j] != victims[i] {
            LexIrreflexive(victims[i]);
          }
        }
        assert victims[..i + 1] == victims[..i] + [victims[i]];
        ForgetHtlc(victims[i], htlcFull[victims[i]]);
      }
      assert victims[..|victims|] == victims;
      RemovedIsKeep(m, victims, HtlcHeight, keepBelow);
    }

    method WipeSettlementsAbove(keepBelow: u64)
      requires SettlementsAgree()
      modifies this`settlementByContract, this`settlementByAddress
      ensures SettlementsAgree()
      ensures settlementByContract == Keep(old(settlementByContract), SettlementHeight, keepBelow)
    {
      hide Mirror, ContractKey;
      MirrorWithout(settlementByContract, keepBelow);
      settlementByContract := WipeRows(settlementByContract, SettlementHeight, keepBelow);
      var mirrored := map k | k in settlementByAddress :: ();
      var victims := VictimsAbove(mirrored, (k: Bytes, u: ()) => KeyHeight(k, 64), keepBelow);
      mirrored := RemoveRows(mirrored, victims);
      settlementByAddress := mirrored.Keys;
    }

    method WipeOutputDatumsAbove(keepBelow: u64)
      modifies this`outputDatum, this`datumByQuoteId
      ensures outputDatum == Keep(old(outputDatum), DatumHeight, keepBelow)
      ensures datumByQuoteId == old(datumByQuoteId) - DroppedQuotes(old(outputDatum), keepBelow)
    {
      var rows := outputDatum;
      var victims := VictimsAbove(outputDatum, DatumHeight, keepBelow);
      RemovedIsKeep(outputDatum, victims, DatumHeight, keepBelow);
      outputDatum := RemoveRows(outputDatum, victims);
      for i := 0 to |victims|
        invariant outputDatum == Keep(rows, DatumHeight, keepBelow)
        invariant datumByQuoteId == old(datumByQuoteId) - ReverseRows(rows, victims[..i])
      {
        var k := victims[i];
        assert k in victims;
        if |k| == 36 && rows[k].quoteId.Some? {
          Widths();
          datumByQuoteId := datumByQuoteId - {QuoteKey(rows[k].quoteId.value, k[..32], FromBE(k[32..]))};
        }
        assert victims[..i + 1] == victims[..i] + [k];
        assert ReverseRows(rows, victims[..i + 1]) == ReverseRows(rows, victims[..i]) + ReverseKeys(k, rows[k]);
      }
      assert victims[..|victims|] == victims;
      assert ReverseRows(rows, victims) == DroppedQuotes(rows, keepBelow);
    }
  }
}
