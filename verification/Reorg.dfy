/** The exact condition under which a reorg of one block ends on the new branch. */
module Reorg {
  import opened ByteStrings
  import opened Records
  import opened Keys
  import opened Folds
  import opened Tables
  import opened Replay
  import opened Rewind
  import opened Extract
  import opened Blocks
  import opened Following
  import opened Sessions
  import opened Forks
  import opened Guarantees

  // The events a walk over `t` hands the store, block by block.
  function FollowEvents(c: Crate, node: Node, t: Tables, from: nat, end: nat): (bs: seq<BlockEvents>)
    requires from <= end <= |node.chain| <= U64_MAX
    ensures |bs| == end - from
  {
    if from == end then []
    else
      FollowEvents(c, node, t, from, end - 1)
      + [EventsAt(c, node, end - 1, Follow(c, node, t, from, end - 1).htlcs, 0)]
  }

  lemma {:induction false} FollowIsWalk(c: Crate, node: Node, t: Tables, from: nat, end: nat)
    requires from <= end <= |node.chain| <= U64_MAX
    ensures Follow(c, node, t, from, end) == WalkData(t, FollowEvents(c, node, t, from, end))
    decreases end
  {
    hide EventsOf, ApplyData;
    if from != end {
      FollowIsWalk(c, node, t, from, end - 1);
      var last := EventsAt(c, node, end - 1, Follow(c, node, t, from, end - 1).htlcs, 0);
      WalkConcat(t, FollowEvents(c, node, t, from, end - 1), [last]);
      WalkOne(WalkData(t, FollowEvents(c, node, t, from, end - 1)), last);
    }
  }

  lemma {:induction false} FollowEventsAt(c: Crate, node: Node, t: Tables, from: nat, end: nat, h: nat)
    requires from <= h < end <= |node.chain| <= U64_MAX
    ensures FollowEvents(c, node, t, from, end)[h - from] == EventsAt(c, node, h, Follow(c, node, t, from, h).htlcs, 0)
    decreases end
  {
    hide EventsOf, ApplyData;
    if h < end - 1 {
      FollowEventsAt(c, node, t, from, end - 1, h);
    }
  }

  // Only the settlements of a block depend on the store.
  lemma SpendsAlike(c: Crate, node: Node, h: nat, htlcs: map<Bytes, HtlcRecord>, htlcs': map<Bytes, HtlcRecord>)
    requires h < |node.chain| <= U64_MAX
    ensures SpendOps(EventsAt(c, node, h, htlcs, 0)) == SpendOps(EventsAt(c, node, h, htlcs', 0))
  {}

  lemma {:induction false} SpendStreamsAlike(c: Crate, node: Node, t: Tables, t': Tables, from: nat, end: nat)
    requires from <= end <= |node.chain| <= U64_MAX
    ensures Flat(SpendOps, FollowEvents(c, node, t, from, end)) == Flat(SpendOps, FollowEvents(c, node, t', from, end))
    decreases end
  {
    hide EventsOf, ApplyData, SpendOps;
    if from != end {
      SpendStreamsAlike(c, node, t, t', from, end - 1);
      var x := EventsAt(c, node, end - 1, Follow(c, node, t, from, end - 1).htlcs, 0);
      var x' := EventsAt(c, node, end - 1, Follow(c, node, t', from, end - 1).htlcs, 0);
      FlatSnoc(SpendOps, FollowEvents(c, node, t, from, end - 1), x);
      FlatSnoc(SpendOps, FollowEvents(c, node, t', from, end - 1), x');
      SpendsAlike(c, node, end - 1, Follow(c, node, t, from, end - 1).htlcs, Follow(c, node, t', from, end - 1).htlcs);
    }
  }

  // ---- Where a row was locked -----------------------------------------------------------

  lemma LockSource(c: Crate, node: Node, n: nat, k: Bytes) returns (h: nat)
    requires n <= |node.chain| <= U64_MAX && OwnIds(node) && k in Straight(c, node, n).htlcs
    ensures h < n && Straight(c, node, n).htlcs[k].lockTxId in node.chain[h].transactions
    ensures k == HtlcKey(Straight(c, node, n).htlcs[k])
  {
    hide OwnIds, WalkData, Flat, Bodies, EventsOf, Follow, EventList, LastLock, FirstSpend, HtlcKey;
    var bs := EventList(c, node, n);
    StraightIsWalk(c, node, n);
    HtlcRefinement(EMPTY, bs, k);
    LastLockMeans(bs, k);
    var l := LastLock(bs, k).value;
    h := l.block;
    AdvanceKeepsLock(l.record, FirstSpend(Flat(SpendOps, bs[l.block..]), k));
    AdvanceKeepsPlace(l.record, FirstSpend(Flat(SpendOps, bs[l.block..]), k));
    EventListAt(c, node, n, h);
    LocksIn(c, node, h, Straight(c, node, h).htlcs, l.record);
  }

  lemma LocksIn(c: Crate, node: Node, h: nat, htlcs: map<Bytes, HtlcRecord>, r: HtlcRecord)
    requires h < |node.chain| <= U64_MAX && OwnIds(node) && r in EventsAt(c, node, h, htlcs, 0).locks
    ensures r.lockTxId in node.chain[h].transactions
  {
    hide OwnIds, Flat, Bodies;
    LocksOfBlock(c, node, node.chain[h], h, r);
  }

  // On a sound chain an outpoint locked below `from` is not locked again from there on.
  lemma NoLockAgain(c: Crate, node: Node, t: Tables, from: nat, end: nat, k: Bytes)
    requires from <= end <= |node.chain| <= U64_MAX && SoundTxs(node) && k in Straight(c, node, from).htlcs
    ensures LastLock(FollowEvents(c, node, t, from, end), k).None?
  {
    hide SoundTxs, OwnIds, EventsOf, Follow, FollowEvents, HtlcKey, BlocksApart;
    var bs := FollowEvents(c, node, t, from, end);
    SoundParts(node);
    if LastLock(bs, k).Some? {
      LastLockMeans(bs, k);
      var l := LastLock(bs, k).value;
      var h := from + l.block;
      FollowEventsAt(c, node, t, from, end, h);
      LocksIn(c, node, h, Follow(c, node, t, from, h).htlcs, l.record);
      var h0 := LockSource(c, node, from, k);
      SameLockTx(Straight(c, node, from).htlcs[k], l.record);
      NotInBoth(node, h0, h, l.record.lockTxId);
    }
  }

  lemma SameLockTx(r: HtlcRecord, r': HtlcRecord)
    requires HtlcKey(r) == HtlcKey(r')
    ensures r.lockTxId == r'.lockTxId
  {
    PrimaryKeyInjective(r.lockTxId, r.outputIndex, r'.lockTxId, r'.outputIndex);
  }

  lemma SoundParts(node: Node)
    requires SoundTxs(node)
    ensures OwnIds(node)
    ensures forall h, h' :: 0 <= h < h' < |node.chain| ==> BlocksApart(node, node.chain[h], node.chain[h'])
  {}

  lemma NotInBoth(node: Node, h: nat, h': nat, id: Hash)
    requires SoundTxs(node) && h < h' < |node.chain|
    ensures !(id in node.chain[h].transactions && id in node.chain[h'].transactions)
  {
    hide OwnIds;
    assert BlocksApart(node, node.chain[h], node.chain[h']);
  }

  // ---- Settlement rows of one block -------------------------------------------------------

  lemma {:induction false} SettlementSource(c: Crate, node: Node, t: Tables, from: nat, end: nat, key: Bytes)
    returns (h: nat, row: SettlementRecord)
    requires from <= end <= |node.chain| <= U64_MAX
    requires key in Follow(c, node, t, from, end).settlements && key !in t.settlements
    ensures from <= h < end && ContractKey(row) == key
    ensures row in EventsAt(c, node, h, Follow(c, node, t, from, h).htlcs, 0).settlements
    decreases end
  {
    hide EventsOf, HtlcFold, ContractKey;
    var before := Follow(c, node, t, from, end - 1);
    if key in before.settlements {
      h, row := SettlementSource(c, node, t, from, end - 1, key);
    } else {
      h := end - 1;
      var ev := EventsAt(c, node, h, before.htlcs, 0);
      PutAllOverlays(before.settlements, SettlementPuts(ev));
      var i :| 0 <= i < |SettlementPuts(ev)| && SettlementPuts(ev)[i].key == key;
      row := ev.settlements[i];
    }
  }

  lemma {:induction false} SettlementsStay(c: Crate, node: Node, t: Tables, from: nat, end: nat, key: Bytes)
    requires from <= end <= |node.chain| <= U64_MAX && key in t.settlements
    ensures key in Follow(c, node, t, from, end).settlements
    decreases end
  {
    hide EventsOf, HtlcFold, ContractKey;
    if from != end {
      SettlementsStay(c, node, t, from, end - 1, key);
      var before := Follow(c, node, t, from, end - 1);
      PutAllOverlays(before.settlements, SettlementPuts(EventsAt(c, node, end - 1, before.htlcs, 0)));
    }
  }

  lemma FollowOne(c: Crate, node: Node, t: Tables, h: nat)
    requires h < |node.chain| <= U64_MAX
    ensures Follow(c, node, t, h, h + 1) == ApplyData(t, EventsAt(c, node, h, t.htlcs, 0))
  {
    hide EventsOf, ApplyData;
    assert Follow(c, node, t, h, h) == t;
  }

  lemma SettlementApplied(t: Tables, ev: BlockEvents, row: SettlementRecord)
    requires row in ev.settlements
    ensures ContractKey(row) in ApplyData(t, ev).settlements
  {
    hide HtlcFold, ContractKey;
    PutAllOverlays(t.settlements, SettlementPuts(ev));
    var i :| 0 <= i < |ev.settlements| && ev.settlements[i] == row;
    assert SettlementPuts(ev)[i].key == ContractKey(row);
  }

  lemma SettlementPut(c: Crate, node: Node, t: Tables, h: nat, end: nat, row: SettlementRecord)
    requires h < end <= |node.chain| <= U64_MAX && row in EventsAt(c, node, h, t.htlcs, 0).settlements
    ensures ContractKey(row) in Follow(c, node, t, h, end).settlements
  {
    hide EventsOf, ApplyData, ContractKey, Follow;
    SettlementApplied(t, EventsAt(c, node, h, t.htlcs, 0), row);
    FollowOne(c, node, t, h);
    FollowConcat(c, node, t, h, h + 1, end);
    SettlementsStay(c, node, Follow(c, node, t, h, h + 1), h + 1, end, ContractKey(row));
  }

  // The transaction a settlement row carries for a peeked record: the settling one if the
  // record knows it, else the locking one.
  function NamedTx(r: HtlcRecord): Hash {
    match SettledTxId(r) case Some(t) => t case None => r.lockTxId
  }

  lemma PeekedRow(c: Crate, htlcs: map<Bytes, HtlcRecord>, height: u64, s: HtlcSpend) returns (row: SettlementRecord)
    requires SpendKey(s) in htlcs
    ensures row in SettledBy(c, htlcs, height)(s)
    ensures row.txId == NamedTx(htlcs[SpendKey(s)]) && row.blockHeight == height
  {
    hide SpendKey;
    row := SettledBy(c, htlcs, height)(s)[0];
  }

  // On a sound chain no settlement row of block `h` carries the id of a transaction of `h`
  // or of a later block.
  lemma NoRowNamesItsBlock(c: Crate, node: Node, n: nat, h: nat, g: nat, row: SettlementRecord)
    requires h < n <= |node.chain| <= U64_MAX && h <= g < |node.chain| && SoundTxs(node)
    requires row.blockHeight == h && row.txId in node.chain[g].transactions
    ensures ContractKey(row) !in Straight(c, node, n).settlements
  {
    hide SoundTxs, OwnIds, EventsOf, Follow, SpendKey, ContractKey;
    var key := ContractKey(row);
    if key in Straight(c, node, n).settlements {
      var h', row' := SettlementSource(c, node, EMPTY, 0, n, key);
      SettlementsNameTheLock(c, node, h', row');
      SameRowKey(row, row');
      var htlcs := Straight(c, node, h').htlcs;
      var s :| s in EventsAt(c, node, h', htlcs, 0).spends && SpendKey(s) in htlcs && SettlesAt(c, row', htlcs[SpendKey(s)], s.arm, h');
      SoundParts(node);
      var h0 := LockSource(c, node, h', SpendKey(s));
      NotInBoth(node, h0, g, row.txId);
    }
  }

  lemma SameRowKey(s: SettlementRecord, s': SettlementRecord)
    requires ContractKey(s) == ContractKey(s')
    ensures s.txId == s'.txId && s.blockHeight == s'.blockHeight
  {
    assert ContractKey(s)[72..] == ContractKey(s')[72..];
    assert FromBE(ContractKey(s)[64..72]) == FromBE(ContractKey(s')[64..72]);
  }

  // A row that names a transaction of its own block or of a later one is in no straight walk.
  lemma PeekMisnames(c: Crate, node: Node, w: Tables, h: nat, end: nat, g: nat, s: HtlcSpend)
    requires h < end <= |node.chain| <= U64_MAX && h <= g < |node.chain| && SoundTxs(node)
    requires s in EventsAt(c, node, h, w.htlcs, 0).spends && SpendKey(s) in w.htlcs
    requires NamedTx(w.htlcs[SpendKey(s)]) in node.chain[g].transactions
    ensures Follow(c, node, w, h, end).settlements != Straight(c, node, end).settlements
  {
    hide SoundTxs, OwnIds, Flat, Follow, SpendKey, ContractKey, Bodies, SettledBy;
    var row := PeekedRow(c, w.htlcs, h, s);
    FlatIn(SettledBy(c, w.htlcs, h), EventsAt(c, node, h, w.htlcs, 0).spends, row);
    SettlementPut(c, node, w, h, end, row);
    NoRowNamesItsBlock(c, node, end, h, g, row);
  }

  // ---- The new branch over a stuck row --------------------------------------------------------

  // A spend's arm names the transaction it is in.
  lemma ArmNamesTx(c: Crate, node: Node, h: nat, htlcs: map<Bytes, HtlcRecord>, s: HtlcSpend)
    requires h < |node.chain| <= U64_MAX && OwnIds(node) && s in EventsAt(c, node, h, htlcs, 0).spends
    ensures s.arm.spendingTxId in node.chain[h].transactions
  {
    hide OwnIds, Flat, Bodies, Extracted, ClassifySpendArm;
    var tx := SourceOf(SpendsOf(c, h), node, node.chain[h], s);
    var id :| id in node.chain[h].transactions && node.HasBody(id) && tx == node.txs[id].value;
    BodyOwnsId(node, id);
    SpendsExactly(c, tx, h, s);
    var i: nat :| SpendsInput(tx, tx.txId.value, i, s);
    ClassifiedExactly(if i < |tx.witnesses| then tx.witnesses[i] else [], tx.txId.value, AsU32(i));
  }

  // A spend of the first block of a walk, found by its height.
  lemma SpendAtHeight(c: Crate, node: Node, t: Tables, from: nat, end: nat, op: HtlcOp)
    requires from < end <= |node.chain| <= U64_MAX
    requires op in Flat(SpendOps, FollowEvents(c, node, t, from, end)) && op.Spend? && op.height == from
    ensures op.spend in EventsAt(c, node, from, t.htlcs, 0).spends
  {
    hide EventsOf, ApplyData, FollowEvents;
    var bs := FollowEvents(c, node, t, from, end);
    FlatIn(SpendOps, bs, op);
    var i :| 0 <= i < |bs| && op in SpendOps(bs[i]);
    FollowEventsAt(c, node, t, from, end, from + i);
    var htlcs := Follow(c, node, t, from, from + i).htlcs;
    EventsNames(c, node, node.chain[from + i], from + i, htlcs, 0);
    var j :| 0 <= j < |SpendOps(bs[i])| && SpendOps(bs[i])[j] == op;
  }

  // If the new branch settles the stuck HTLC in the very same way, its rows agree again,
  // but the settlement row is made from the record already settled and names the wrong
  // transaction.
  lemma SameSpendMisnames(c: Crate, node: Node, w: Tables, from: nat, end: nat, s: HtlcSpend)
    requires from < end <= |node.chain| <= U64_MAX && SoundTxs(node)
    requires s in EventsAt(c, node, from, w.htlcs, 0).spends
    requires SpendKey(s) in w.htlcs && SettledTxId(w.htlcs[SpendKey(s)]) == Some(s.arm.spendingTxId)
    ensures Follow(c, node, w, from, end).settlements != Straight(c, node, end).settlements
  {
    hide SoundTxs, OwnIds, EventsOf, Follow, SpendKey;
    SoundParts(node);
    ArmNamesTx(c, node, from, w.htlcs, s);
    PeekMisnames(c, node, w, from, end, from, s);
  }

  lemma AdvancedNames(r: HtlcRecord, arm: SpendArm, height: u64)
    requires r.claim.None? && r.reclaim.None?
    ensures SettledTxId(Advance(r, arm, height)) == Some(arm.spendingTxId)
  {}

  // The stuck row, advanced by `fa`, and the row of the straight walk end up different, or
  // both were advanced by the same spend.
  lemma StuckRowDiffers(c: Crate, b: Node, w: Tables, from: nat, end: nat, k: Bytes, fa: Option<HtlcOp>)
    requires from < end <= |b.chain| <= U64_MAX && SoundTxs(b)
    requires var open := Straight(c, b, from).htlcs;
             k in open && !open[k].Settled() && Get(w.htlcs, k) == Some(AdvanceBy(open[k], fa))
    requires fa.Some? && fa.value.Spend? && fa.value.Key() == k
    requires Get(Follow(c, b, w, from, end).htlcs, k) == Get(Straight(c, b, end).htlcs, k)
    ensures fa.value in Flat(SpendOps, FollowEvents(c, b, w, from, end))
  {
    hide SoundTxs, FollowEvents, Follow, Flat, FirstSpend, LastLock, WalkData;
    var p := Straight(c, b, from);
    NoLockAgain(c, b, w, from, end, k);
    NoLockAgain(c, b, p, from, end, k);
    FollowIsWalk(c, b, w, from, end);
    FollowIsWalk(c, b, p, from, end);
    FollowConcat(c, b, EMPTY, 0, from, end);
    SpendStreamsAlike(c, b, w, p, from, end);
    var ops := Flat(SpendOps, FollowEvents(c, b, w, from, end));
    var fb := FirstSpend(ops, k);
    HtlcRefinement(w, FollowEvents(c, b, w, from, end), k);
    HtlcRefinement(p, FollowEvents(c, b, p, from, end), k);
    FirstSpendIsSpend(ops, k);
    AdvanceTwice(p.htlcs[k], fa, fb);
    AdvanceTells(p.htlcs[k], fa, fb, k);
  }

  lemma StuckBlocks(c: Crate, b: Node, w: Tables, from: nat, end: nat, k: Bytes, fa: Option<HtlcOp>)
    requires from < end <= |b.chain| <= U64_MAX && SoundTxs(b)
    requires var open := Straight(c, b, from).htlcs;
             k in open && !open[k].Settled() && Get(w.htlcs, k) == Some(AdvanceBy(open[k], fa))
    requires fa.Some? && fa.value.Spend? && fa.value.Key() == k && fa.value.height == from
    ensures Follow(c, b, w, from, end) != Straight(c, b, end)
  {
    hide SoundTxs, FollowEvents, Follow, Flat, SpendKey, EventsOf;
    if Follow(c, b, w, from, end) == Straight(c, b, end) {
      StuckRowDiffers(c, b, w, from, end, k, fa);
      SpendAtHeight(c, b, w, from, end, fa.value);
      FollowedLifecycle(c, b, from);
      AdvancedNames(Straight(c, b, from).htlcs[k], fa.value.spend.arm, from);
      SameSpendMisnames(c, b, w, from, end, fa.value.spend);
    }
  }

  // ---- The theorem -----------------------------------------------------------------------------

  // The row of a stuck HTLC after the rewind, next to the row of the common blocks.
  lemma StuckAfterRewind(c: Crate, a: Node, b: Node, s: Store, last: u64, k: Bytes) returns (fa: Option<HtlcOp>)
    requires ForksAt(c, a, b, s, last) && SoundTxs(a)
    requires SettlesOpen(c, a, last, k)
    ensures var open := Straight(c, b, last).htlcs;
            && k in open && !open[k].Settled()
            && Get(WipeData(s.data, last - 1).htlcs, k) == Some(AdvanceBy(open[k], fa))
    ensures fa.Some? && fa.value.Spend? && fa.value.Key() == k && fa.value.height == last
  {
    hide EventsOf, ApplyData, WipeData, Follow, Fetchable, ValidChain, SoundTxs, FirstSpend, HtlcKey, SpendKey;
    var pre, all := EventList(c, a, last), EventList(c, a, last + 1);
    StuckMeans(c, a, last, k);
    EventListPrefix(c, a, last + 1);
    SoundTxsMakeValidChain(c, a, last + 1);
    HeightsOfList(c, a, last);
    HeightsOfList(c, a, last + 1);
    hide EventList;
    CutsAtEnd(pre, all[last], last - 1);
    RewindTheorem(pre, [all[last]], last - 1);
    StraightIsWalk(c, a, last);
    StraightIsWalk(c, a, last + 1);
    FetchablePrefix(a, last, last + 1);
    SameFollow(c, a, b, EMPTY, 0, last);
    fa := FirstSpend(Flat(SpendOps, [all[last]]), k);
    FlatOne(SpendOps, all[last]);
    FirstSpendIsSpend(Flat(SpendOps, [all[last]]), k);
  }

  // What a successful tick over a diverged checkpoint leaves.
  lemma SuccessfulTick(c: Crate, node: Node, now: u64, s: Store, s': Store)
    requires SoundNode(node) && Ticked(c, node, now, s, s', true)
    requires s.checkpoint.Stored? && Diverged(node, s.checkpoint.meta)
    ensures var h: u64 := s.checkpoint.meta.lastIndexedHeight - 1;
            s'.data == Follow(c, node, WipeData(s.data, h), h + 1, |node.chain|)
  {
    hide Follow, WipeData, Fetchable;
    var m := Started(s.checkpoint.meta, now);
    BlockIdsTellStart(node, m.lastIndexedHeight - 1, SteppedBack(node, m));
  }

  // The reorg theorem. A successful tick after a fork of one block ends in step with the
  // new branch exactly when the abandoned block settled no HTLC that was open before it. If
  // it did, nothing the new branch carries makes up for it, not even the same settlement.
  lemma OneBlockReorg(c: Crate, a: Node, b: Node, s: Store, last: u64, now: u64, s': Store)
    requires ForksAt(c, a, b, s, last) && SoundTxs(a) && SoundTxs(b)
    requires Ticked(c, b, now, s, s', true)
    ensures last < |a.chain| && last < |b.chain|
    ensures InSync(c, b, EMPTY, s') <==> forall k :: !SettlesOpen(c, a, last, k)
    ensures InSync(c, b, EMPTY, s') ==> Indexed(s') == |b.chain|
  {
    hide SoundTxs, SettlesOpen, Follow, WipeData, Fetchable, Caught;
    ForkOfOneBlock(c, a, b, s, last);
    if forall k :: !SettlesOpen(c, a, last, k) {
      assert Views(b, b);
      TickRepairs(c, b, b, EMPTY, now, s, s', true);
    } else {
      var k :| SettlesOpen(c, a, last, k);
      var fa := StuckAfterRewind(c, a, b, s, last, k);
      var wiped := WipeData(s.data, last - 1);
      StuckBlocks(c, b, wiped, last, |b.chain|, k, fa);
      SuccessfulTick(c, b, now, s, s');
      HoldsWholeChain(c, b, now, s, s');
    }
  }

  lemma HoldsWholeChain(c: Crate, node: Node, now: u64, s: Store, s': Store)
    requires SoundNode(node) && Ticked(c, node, now, s, s', true) && s.checkpoint.Stored?
    requires s.checkpoint.meta.lastIndexedHeight > 0
    ensures InSync(c, node, EMPTY, s') ==> Indexed(s') == |node.chain|
  {
    hide Follow, WipeData, Fetchable;
  }
}
