/**
 What holds of every store a straight walk of a node's chain builds, and so of every
 store the follower reaches in step with it.
 */
module Guarantees {
  import opened ByteStrings
  import opened Records
  import opened Keys
  import opened Folds
  import opened Tables
  import opened Runs
  import opened Extract
  import opened Blocks
  import opened Following
  import opened Forks

  // ---- HTLC lifecycle -----------------------------------------------------------------

  lemma LocksAreFresh(c: Crate, node: Node, block: Block, height: u64, htlcs: map<Bytes, HtlcRecord>)
    ensures FreshLocks(EventsOf(c, node, block, height, htlcs, 0))
  {
    hide Flat, Bodies, Extracted;
    var ev := EventsOf(c, node, block, height, htlcs, 0);
    forall i | 0 <= i < |ev.locks| ensures FreshLock(ev.locks[i], height) {
      var tx := SourceOf(LocksOf(c, height), node, block, ev.locks[i]);
      ExtractedRows(c, tx, height);
    }
  }

  // Whatever the chain carries: claimed rows have a claim and no reclaim, reclaimed ones the
  // reverse, open ones neither, none settled before it was locked.
  lemma {:induction false} FollowedLifecycle(c: Crate, node: Node, n: nat)
    requires n <= |node.chain| <= U64_MAX
    ensures AllLifecycle(Straight(c, node, n).htlcs) && LockedBelow(Straight(c, node, n).htlcs, n)
  {
    hide EventsOf, ApplyData, Lifecycle, FreshLocks;
    if n > 0 {
      FollowedLifecycle(c, node, n - 1);
      var before := Straight(c, node, n - 1);
      AllHaveOneOutcome(before.htlcs);
      LocksAreFresh(c, node, node.chain[n - 1], n - 1, before.htlcs);
      EventsNames(c, node, node.chain[n - 1], n - 1, before.htlcs, 0);
      BlockKeepsLifecycle(before, EventsAt(c, node, n - 1, before.htlcs, 0));
    }
  }

  // ---- Who settles what ----------------------------------------------------------------

  // A row settled by a stream of fresh locks and spends was spent in it.
  lemma {:induction false} FoldSettles(m: map<Bytes, HtlcRecord>, ops: seq<HtlcOp>, k: Bytes)
    requires k in HtlcFold(m, ops) && HtlcFold(m, ops)[k].Settled()
    requires forall i :: 0 <= i < |ops| && ops[i].Lock? ==> !ops[i].record.Settled()
    requires k in m ==> !m[k].Settled()
    ensures exists i :: 0 <= i < |ops| && ops[i].Spend? && ops[i].Key() == k
    decreases |ops|
  {
    hide HtlcKey, SpendKey;
    if ops != [] && !(ops[0].Spend? && ops[0].Key() == k) {
      FoldSettles(HtlcStep(m, ops[0]), ops[1..], k);
      var i :| 0 <= i < |ops[1..]| && ops[1..][i].Spend? && ops[1..][i].Key() == k;
      assert ops[i + 1] == ops[1..][i];
    }
  }

  lemma {:induction false} FoldKeys(m: map<Bytes, HtlcRecord>, ops: seq<HtlcOp>, k: Bytes)
    ensures k in HtlcFold(m, ops) <==> k in m || exists i :: 0 <= i < |ops| && ops[i].Lock? && ops[i].Key() == k
    decreases |ops|
  {
    hide HtlcKey, SpendKey;
    if ops != [] {
      FoldKeys(HtlcStep(m, ops[0]), ops[1..], k);
      assert forall i :: 0 <= i < |ops[1..]| ==> ops[1..][i] == ops[i + 1];
      if i :| 0 <= i < |ops| && ops[i].Lock? && ops[i].Key() == k {
        assert i == 0 || ops[1..][i - 1] == ops[i];
      }
    }
  }

  lemma LockOpOf(ev: BlockEvents, i: nat)
    requires i < |HtlcOps(ev)| && HtlcOps(ev)[i].Lock?
    ensures HtlcOps(ev)[i].record in ev.locks
  {}

  // Some block below `n` spends the outpoint of key `k`.
  ghost predicate SpentBelow(c: Crate, node: Node, n: nat, k: Bytes)
    requires n <= |node.chain| <= U64_MAX
  {
    exists h, s :: 0 <= h < n && s in Flat(SpendsOf(c, h), Bodies(node, node.chain[h].transactions)) && SpendKey(s) == k
  }

  lemma SpendOpsOf(ev: BlockEvents, i: nat)
    requires i < |HtlcOps(ev)| && HtlcOps(ev)[i].Spend?
    ensures HtlcOps(ev)[i].spend in ev.spends
  {
    assert i >= |ev.locks| ==> HtlcOps(ev)[i] == Spend(ev.spends[i - |ev.locks|], ev.height);
  }

  lemma {:induction false} SettledWasSpent(c: Crate, node: Node, n: nat, k: Bytes)
    requires n <= |node.chain| <= U64_MAX
    requires k in Straight(c, node, n).htlcs && Straight(c, node, n).htlcs[k].Settled()
    ensures SpentBelow(c, node, n, k)
  {
    hide EventsOf, HtlcFold, HtlcOps, PutAll, Flat, Bodies, SpendKey;
    if n > 0 {
      var before := Straight(c, node, n - 1).htlcs;
      if k in before && before[k].Settled() {
        SettledWasSpent(c, node, n - 1, k);
      } else {
        SpentHere(c, node, n - 1, before, k);
      }
    }
  }

  lemma SpentHere(c: Crate, node: Node, h: u64, before: map<Bytes, HtlcRecord>, k: Bytes)
    requires h < |node.chain| <= U64_MAX
    requires var after := HtlcFold(before, HtlcOps(EventsAt(c, node, h, before, 0)));
             k in after && after[k].Settled()
    requires k in before ==> !before[k].Settled()
    ensures exists s :: s in Flat(SpendsOf(c, h), Bodies(node, node.chain[h].transactions)) && SpendKey(s) == k
  {
    hide HtlcFold, HtlcOps, Flat, Bodies, SpendKey;
    var ev := EventsAt(c, node, h, before, 0);
    LocksAreFresh(c, node, node.chain[h], h, before);
    OpsOfEvents(ev);
    FoldSettles(before, HtlcOps(ev), k);
    var i :| 0 <= i < |HtlcOps(ev)| && HtlcOps(ev)[i].Spend? && HtlcOps(ev)[i].Key() == k;
    SpendOpsOf(ev, i);
    assert SpendKey(HtlcOps(ev)[i].spend) == k;
  }

  // The input a classified spend came from.
  lemma SpendInput(c: Crate, node: Node, block: Block, height: u64, s: HtlcSpend) returns (id: Hash, i: nat)
    requires OwnIds(node)
    requires s in Flat(SpendsOf(c, height), Bodies(node, block.transactions))
    ensures id in block.transactions && node.HasBody(id)
    ensures var tx := node.txs[id].value; i < Joined(tx) && tx.inputs[i] == TxInput(s.lockTxId, s.outputIndex)
  {
    hide Extracted, ClassifySpendArm;
    var tx := SourceOf(SpendsOf(c, height), node, block, s);
    id :| id in block.transactions && node.HasBody(id) && tx == node.txs[id].value;
    SpendsExactly(c, tx, height, s);
    i :| SpendsInput(tx, tx.txId.value, i, s);
  }

  // On a sound chain all classified spends of an outpoint are in one block.
  lemma SpentInOneBlock(c: Crate, node: Node, h: nat, s: HtlcSpend, h': nat, s': HtlcSpend)
    requires h < |node.chain| <= U64_MAX && h' < |node.chain| && SoundTxs(node)
    requires s in Flat(SpendsOf(c, h), Bodies(node, node.chain[h].transactions))
    requires s' in Flat(SpendsOf(c, h'), Bodies(node, node.chain[h'].transactions))
    requires SpendKey(s) == SpendKey(s')
    ensures h == h'
  {
    hide OwnIds, Flat, Bodies, BlocksApart;
    PrimaryKeyInjective(s.lockTxId, s.outputIndex, s'.lockTxId, s'.outputIndex);
    var id, i := SpendInput(c, node, node.chain[h], h, s);
    var id', i' := SpendInput(c, node, node.chain[h'], h', s');
    hide SoundTxs;
    if h < h' {
      InputsApart(node, h, h', id, id', i, i');
    } else if h' < h {
      InputsApart(node, h', h, id', id, i', i);
    }
  }

  lemma InputsApart(node: Node, h: nat, h': nat, id: Hash, id': Hash, i: nat, i': nat)
    requires SoundTxs(node) && h < h' < |node.chain|
    requires id in node.chain[h].transactions && id' in node.chain[h'].transactions
    requires node.HasBody(id) && node.HasBody(id')
    requires i < Joined(node.txs[id].value) && i' < Joined(node.txs[id'].value)
    ensures node.txs[id].value.inputs[i] != node.txs[id'].value.inputs[i']
  {
    hide OwnIds;
    assert BlocksApart(node, node.chain[h], node.chain[h']);
    assert SpendApart(node.txs[id].value, node.txs[id'].value);
  }

  // So no block spends an HTLC that an earlier one settled.
  lemma SpendsFindOpenRows(c: Crate, node: Node, h: nat, s: HtlcSpend)
    requires h < |node.chain| <= U64_MAX && SoundTxs(node)
    requires s in Flat(SpendsOf(c, h), Bodies(node, node.chain[h].transactions))
    requires SpendKey(s) in Straight(c, node, h).htlcs
    ensures !Straight(c, node, h).htlcs[SpendKey(s)].Settled()
  {
    hide SoundTxs, Flat, Bodies, Follow, SpendKey;
    if Straight(c, node, h).htlcs[SpendKey(s)].Settled() {
      SettledWasSpent(c, node, h, SpendKey(s));
      var h', s' :| 0 <= h' < h && s' in Flat(SpendsOf(c, h'), Bodies(node, node.chain[h'].transactions))
                    && SpendKey(s') == SpendKey(s);
      SpentInOneBlock(c, node, h', s', h, s);
    }
  }

  // ---- What settlement rows name -----------------------------------------------------------

  // The parties, the amount and the outcome of a spend of an open HTLC are those of its
  // record; the transaction is the one that locked it, not the one that settled it.
  predicate SettlesAt(c: Crate, s: SettlementRecord, r: HtlcRecord, arm: SpendArm, height: u64) {
    && s.txId == r.lockTxId && s.lockTxId == r.lockTxId && s.lockOutputIndex == r.outputIndex
    && s.outcome == (if arm.Claim? then Claimed else Reclaimed)
    && s.blockHeight == height && s.amount == r.amount && s.contractHash == c.contractHash(r.params)
    && (s.observerAddress, s.counterparty) in
       {(c.addressOf(r.params.sender), c.addressOf(r.params.receiver)),
        (c.addressOf(r.params.receiver), c.addressOf(r.params.sender))}
  }

  lemma SettlementOfOpenRow(c: Crate, htlcs: map<Bytes, HtlcRecord>, height: u64, s: HtlcSpend, row: SettlementRecord)
    requires SpendKey(s) in htlcs && Lifecycle(htlcs[SpendKey(s)]) && !htlcs[SpendKey(s)].Settled()
    requires row in SettledBy(c, htlcs, height)(s)
    ensures SettlesAt(c, row, htlcs[SpendKey(s)], s.arm, height)
  {
    hide SpendKey;
  }

  // Every settlement row a block of a sound chain writes: whose it is, what it says, and
  // that it carries the id of the lock.
  lemma SettlementsNameTheLock(c: Crate, node: Node, h: nat, row: SettlementRecord)
    requires h < |node.chain| <= U64_MAX && SoundTxs(node)
    requires row in EventsAt(c, node, h, Straight(c, node, h).htlcs, 0).settlements
    ensures exists s :: s in EventsAt(c, node, h, Straight(c, node, h).htlcs, 0).spends
              && SpendKey(s) in Straight(c, node, h).htlcs
              && SettlesAt(c, row, Straight(c, node, h).htlcs[SpendKey(s)], s.arm, h)
  {
    hide SoundTxs, Flat, Follow, Bodies, SpendKey, Lifecycle, SettlesAt;
    var htlcs := Straight(c, node, h).htlcs;
    var spends := EventsAt(c, node, h, htlcs, 0).spends;
    FlatIn(SettledBy(c, htlcs, h), spends, row);
    var i :| 0 <= i < |spends| && row in SettledBy(c, htlcs, h)(spends[i]);
    FollowedLifecycle(c, node, h);
    SpendsFindOpenRows(c, node, h, spends[i]);
    SettlementOfOpenRow(c, htlcs, h, spends[i], row);
    assert spends[i] in spends;
  }

  // So two outputs of one transaction that settle in one block share a row in the contract
  // table, and only the later one is kept, exactly when they have the same template and the
  // observing party in common.
  lemma SettlementRowsCollide(c: Crate, s: SettlementRecord, s': SettlementRecord, r: HtlcRecord, r': HtlcRecord,
                              arm: SpendArm, arm': SpendArm, height: u64)
    requires SettlesAt(c, s, r, arm, height) && SettlesAt(c, s', r', arm', height)
    ensures ContractKey(s) == ContractKey(s') <==>
            r.lockTxId == r'.lockTxId && c.contractHash(r.params) == c.contractHash(r'.params)
            && s.observerAddress == s'.observerAddress
  {
    hide SettlementKey;
    SettlementKeyInjective(s.contractHash, s.observerAddress, s.blockHeight, s.txId,
                           s'.contractHash, s'.observerAddress, s'.blockHeight, s'.txId);
  }

  // ---- Quotes ------------------------------------------------------------------------------

  // The quote the output at an outpoint key carries on the node.
  function CarriedBy(node: Node): Bytes -> Option<QuoteId> {
    (k: Bytes) => CarriedAt(node, k)
  }

  function CarriedAt(node: Node, k: Bytes): Option<QuoteId> {
    Widths();
    if |k| == 36 && node.HasBody(k[..32]) && FromBE(k[32..]) < |node.txs[k[..32]].value.outputs|
    then var datum := node.txs[k[..32]].value.outputs[FromBE(k[32..])].datum;
         if datum.Some? then StrictDecodeQuoteId(datum.value) else None
    else None
  }

  lemma EventsCarry(c: Crate, node: Node, block: Block, height: u64, htlcs: map<Bytes, HtlcRecord>)
    requires OwnIds(node)
    ensures Carries(EventsOf(c, node, block, height, htlcs, 0), CarriedBy(node))
  {
    hide OwnIds, Flat, Bodies, Extracted;
    var ev := EventsOf(c, node, block, height, htlcs, 0);
    forall i | 0 <= i < |ev.outputDatums|
      ensures var od := ev.outputDatums[i];
              od.quoteId == CarriedBy(node)(DatumKey(od)) && (od.quoteId.Some? <==> !od.unhonorable)
    {
      var od := ev.outputDatums[i];
      DatumsOfBlock(c, node, block, height, od);
      BodyOwnsId(node, od.txId);
      DatumsExactly(c, node.txs[od.txId].value, height, od);
      assert DatumKey(od)[..32] == od.txId && FromBE(DatumKey(od)[32..]) == od.outputIndex;
    }
  }

  lemma BodyOwnsId(node: Node, id: Hash)
    requires OwnIds(node) && node.HasBody(id)
    ensures node.txs[id].value.txId == Some(id) && |node.txs[id].value.outputs| <= 0x1_0000_0000
  {}

  // The two datum tables agree, and every forward row carries the quote of its output.
  lemma {:induction false} FollowedDatums(c: Crate, node: Node, n: nat)
    requires n <= |node.chain| <= U64_MAX && OwnIds(node)
    ensures DatumsAgree(Straight(c, node, n)) && RowsCarry(Straight(c, node, n), CarriedBy(node))
  {
    hide EventsOf, ApplyData, DatumsAgree, RowsCarry, Carries, OwnIds;
    if n > 0 {
      FollowedDatums(c, node, n - 1);
      var before := Straight(c, node, n - 1);
      EventsCarry(c, node, node.chain[n - 1], n - 1, before.htlcs);
      ApplyKeepsDatums(before, EventsAt(c, node, n - 1, before.htlcs, 0), CarriedBy(node));
    } else {
      EmptyDatums(CarriedBy(node));
    }
  }

  lemma EmptyDatums(carried: Bytes -> Option<QuoteId>)
    ensures DatumsAgree(EMPTY) && RowsCarry(EMPTY, carried)
  {}

  // An output of the block shows the quote as its inline datum.
  ghost predicate ShowsQuote(node: Node, block: Block, q: QuoteId, txId: Hash, i: u32) {
    && txId in block.transactions && node.HasBody(txId)
    && i < |node.txs[txId].value.outputs| && node.txs[txId].value.outputs[i].datum == Some(q)
  }

  lemma DatumFromOutput(c: Crate, node: Node, block: Block, height: u64, q: QuoteId, txId: Hash, i: u32)
    requires OwnIds(node)
    ensures OutputDatum(txId, i, Some(q), false) in Flat(DatumsOf(c, height), Bodies(node, block.transactions)) <==>
            ShowsQuote(node, block, q, txId, i)
  {
    hide OwnIds, Extracted;
    var d := OutputDatum(txId, i, Some(q), false);
    var ids := block.transactions;
    if d in Flat(DatumsOf(c, height), Bodies(node, ids)) {
      DatumsOfBlock(c, node, block, height, d);
      BodyOwnsId(node, txId);
      DatumsExactly(c, node.txs[txId].value, height, d);
    }
    if ShowsQuote(node, block, q, txId, i) {
      BodyOwnsId(node, txId);
      var tx := node.txs[txId].value;
      DatumsExactly(c, tx, height, d);
      var j :| 0 <= j < |ids| && ids[j] == txId;
      assert tx in BodyAt(node)(ids[j]);
      FlatIn(BodyAt(node), ids, tx);
      FlatIn(DatumsOf(c, height), Bodies(node, ids), d);
    }
  }

  lemma QuoteWritten(ev: BlockEvents, q: QuoteId, txId: Hash, i: u32)
    requires forall od :: od in ev.outputDatums ==> (od.quoteId.Some? <==> !od.unhonorable)
    ensures QuoteKey(q, txId, i) in QuoteKeys(DatumPuts(ev)) <==> OutputDatum(txId, i, Some(q), false) in ev.outputDatums
  {
    hide QuoteKey, PrimaryKey;
    var puts := DatumPuts(ev);
    if QuoteKey(q, txId, i) in QuoteKeys(puts) {
      var p :| p in puts && QuoteKey(q, txId, i) in ReverseKeys(p.key, p.value);
      var j :| 0 <= j < |puts| && puts[j] == p;
      var od := ev.outputDatums[j];
      assert od in ev.outputDatums;
      ReverseKeyOf(od, ev.height);
      QuoteKeyInjective(q, txId, i, od.quoteId.value, od.txId, od.outputIndex);
      assert od == OutputDatum(txId, i, Some(q), false);
    }
    var d := OutputDatum(txId, i, Some(q), false);
    if d in ev.outputDatums {
      var j :| 0 <= j < |ev.outputDatums| && ev.outputDatums[j] == d;
      ReverseKeyOf(d, ev.height);
      assert puts[j] in puts;
    }
  }

  lemma ReverseKeyOf(od: OutputDatum, height: u64)
    ensures ReverseKeys(DatumKey(od), OutputDatumRecord(od.quoteId, od.unhonorable, height)) ==
            if od.quoteId.None? then {} else {QuoteKey(od.quoteId.value, od.txId, od.outputIndex)}
  {
    hide QuoteKey;
  }

  lemma QuotesOfBlock(c: Crate, node: Node, t: Tables, h: nat, q: QuoteId, txId: Hash, i: u32)
    requires h < |node.chain| <= U64_MAX && OwnIds(node)
    ensures var key := QuoteKey(q, txId, i);
            key in ApplyData(t, EventsAt(c, node, h, t.htlcs, 0)).quotes <==>
            key in t.quotes || ShowsQuote(node, node.chain[h], q, txId, i)
  {
    hide OwnIds, Flat, Bodies, QuoteKey, QuoteKeys, DatumPuts, ShowsQuote, HtlcFold, HtlcOps, PutAll;
    hide SettlementPuts, ActivityPuts, SpentByPuts, BlockPuts;
    var ev := EventsAt(c, node, h, t.htlcs, 0);
    EventsCarry(c, node, node.chain[h], h, t.htlcs);
    forall od | od in ev.outputDatums ensures od.quoteId.Some? <==> !od.unhonorable {
      var j :| 0 <= j < |ev.outputDatums| && ev.outputDatums[j] == od;
    }
    QuoteWritten(ev, q, txId, i);
    DatumFromOutput(c, node, node.chain[h], h, q, txId, i);
  }

  // A quote finds an outpoint exactly when an output at it, in a block walked, shows that
  // quote as its datum.
  lemma {:induction false} QuotesOnChain(c: Crate, node: Node, n: nat, q: QuoteId, txId: Hash, i: u32)
    requires n <= |node.chain| <= U64_MAX && OwnIds(node)
    ensures QuoteKey(q, txId, i) in Straight(c, node, n).quotes <==>
            exists h :: 0 <= h < n && ShowsQuote(node, node.chain[h], q, txId, i)
  {
    hide OwnIds, EventsOf, ApplyData, QuoteKey, ShowsQuote;
    if n > 0 {
      QuotesOnChain(c, node, n - 1, q, txId, i);
      QuotesOfBlock(c, node, Straight(c, node, n - 1), n - 1, q, txId, i);
    }
  }
}
