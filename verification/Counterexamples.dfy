/** Inputs on which the code does less than its comments say. */
module Counterexamples {
  import opened ByteStrings
  import opened Records
  import opened Keys
  import opened Folds
  import opened Tables
  import opened Replay
  import opened Runs
  import opened Seqs
  import opened Paging
  import opened Queries
  import opened History
  import opened Grouping
  import opened Extract
  import opened Blocks
  import opened Following
  import opened Sessions
  import opened Forks
  import opened Guarantees
  import opened Reorg
  import opened Reindex
  import opened OnChain

  function Quiet(height: u64): BlockEvents {
    BlockEvents(height, Fill(height % 0x100, 32), 0, 0, false, 0, [], [], [], [], [], [])
  }

  function SomeLock(): HtlcRecord {
    HtlcRecord(Fill(1, 32), 0, HtlcParams(Fill(2, 32), Fill(3, 32), Fill(4, 32), 100), 5, Some(1), Locked, None, None, Observer, 1)
  }

  // One HTLC, locked at height 1; branch A claims it at height 2, branch B reclaims it there.
  function LockBlock(): BlockEvents {
    Quiet(1).(locks := [SomeLock()])
  }

  function ClaimBlock(): BlockEvents {
    Quiet(2).(spends := [HtlcSpend(Fill(1, 32), 0, SpendArm.Claim([7], Fill(5, 32), 0))])
  }

  function ReclaimBlock(): BlockEvents {
    Quiet(2).(spends := [HtlcSpend(Fill(1, 32), 0, SpendArm.Reclaim(Fill(6, 32), 0))])
  }

  lemma HtlcsOf(t: Tables, ev: BlockEvents, op: HtlcOp)
    requires HtlcOps(ev) == [op]
    ensures ApplyData(t, ev).htlcs == HtlcStep(t.htlcs, op)
  {
    assert HtlcFold(t.htlcs, [op]) == HtlcFold(HtlcStep(t.htlcs, op), []);
  }

  lemma AfterLock()
    ensures WalkData(EMPTY, [LockBlock()]).htlcs == map[HtlcKey(SomeLock()) := SomeLock()]
  {
    hide ApplyData, HtlcKey;
    WalkOne(EMPTY, LockBlock());
    assert HtlcOps(LockBlock()) == [Lock(SomeLock())];
    HtlcsOf(EMPTY, LockBlock(), Lock(SomeLock()));
  }

  lemma AfterSpend(spend: BlockEvents)
    requires spend == ClaimBlock() || spend == ReclaimBlock()
    ensures WalkData(EMPTY, [LockBlock(), spend]).htlcs ==
            map[HtlcKey(SomeLock()) := Advance(SomeLock(), spend.spends[0].arm, 2)]
  {
    hide ApplyData, PrimaryKey, WalkData;
    AfterLock();
    var after := WalkData(EMPTY, [LockBlock()]);
    assert [LockBlock(), spend] == [LockBlock()] + [spend];
    WalkConcat(EMPTY, [LockBlock()], [spend]);
    WalkOne(after, spend);
    var op := HtlcOp.Spend(spend.spends[0], 2);
    assert HtlcOps(spend) == [op];
    HtlcsOf(after, spend, op);
    assert SpendKey(spend.spends[0]) == HtlcKey(SomeLock());
  }

  // The rewind to the fork leaves the claim of branch A in place, and walking branch B does
  // not replace it by B's reclaim.
  lemma AbandonedClaimSticks()
    ensures var k := HtlcKey(SomeLock());
            var wiped := WipeData(WalkData(EMPTY, [LockBlock(), ClaimBlock()]), 1);
            && k in wiped.htlcs && wiped.htlcs[k].state == Claimed
            && k in WalkData(wiped, [ReclaimBlock()]).htlcs && WalkData(wiped, [ReclaimBlock()]).htlcs[k].state == Claimed
            && k in WalkData(EMPTY, [LockBlock(), ReclaimBlock()]).htlcs
            && WalkData(EMPTY, [LockBlock(), ReclaimBlock()]).htlcs[k].state == Reclaimed
  {
    hide HtlcKey, ApplyData;
    var k := HtlcKey(SomeLock());
    AfterSpend(ClaimBlock());
    AfterSpend(ReclaimBlock());
    hide WalkData;
    var wiped := WipeData(WalkData(EMPTY, [LockBlock(), ClaimBlock()]), 1);
    assert k in wiped.htlcs && wiped.htlcs[k].Settled();
    assert LastLock([ReclaimBlock()], k).None?;
    SettledIsFinal(wiped, [ReclaimBlock()], k);
  }

  function DatumBlock(height: u64, quote: byte): BlockEvents {
    Quiet(height).(outputDatums := [OutputDatum(Fill(1, 32), 0, Some(Fill(quote, 16)), false)])
  }

  lemma DatumApplied(t: Tables, height: u64, quote: byte)
    ensures var t' := ApplyData(t, DatumBlock(height, quote));
            && t'.datums == t.datums[PrimaryKey(Fill(1, 32), 0) := OutputDatumRecord(Some(Fill(quote, 16)), false, height)]
            && t'.quotes == t.quotes + {QuoteKey(Fill(quote, 16), Fill(1, 32), 0)}
  {
    hide HtlcFold, HtlcOps, PrimaryKey, QuoteKey, PutAll;
    var ev := DatumBlock(height, quote);
    var put := Put(PrimaryKey(Fill(1, 32), 0), OutputDatumRecord(Some(Fill(quote, 16)), false, height));
    assert DatumPuts(ev) == [put];
    PutOne(t.datums, put);
    assert put in DatumPuts(ev);
    ReverseKeyOf(ev.outputDatums[0], height);
    assert QuoteKeys(DatumPuts(ev)) == ReverseKeys(put.key, put.value);
  }

  // An outpoint written with a second quote keeps its reverse row for the first.
  lemma ChangedQuoteLeavesStaleRow()
    ensures var t := ApplyData(ApplyData(EMPTY, DatumBlock(1, 7)), DatumBlock(2, 8));
            var k := PrimaryKey(Fill(1, 32), 0);
            && k in t.datums && t.datums[k].quoteId == Some(Fill(8, 16))
            && QuoteKey(Fill(7, 16), Fill(1, 32), 0) in t.quotes
            && !DatumsAgree(t)
  {
    hide ApplyData, PrimaryKey, QuoteKey;
    var once := ApplyData(EMPTY, DatumBlock(1, 7));
    var t := ApplyData(once, DatumBlock(2, 8));
    DatumApplied(EMPTY, 1, 7);
    DatumApplied(once, 2, 8);
    var k, q := PrimaryKey(Fill(1, 32), 0), QuoteKey(Fill(7, 16), Fill(1, 32), 0);
    assert Fill(7, 16)[0] == 7 && Fill(8, 16)[0] == 8;
    assert q !in ReverseKeys(k, t.datums[k]);
  }

  // ---- Pages ---------------------------------------------------------------------------

  // A transaction that pays its own sender: the address has a receipt and a payment.
  function SelfPayment(): BlockEvents {
    Quiet(1).(activity := [AddressActivity(Fill(1, 32), Fill(2, 32), 5, false, false, []),
                           AddressActivity(Fill(1, 32), Fill(2, 32), 9, true, false, [])])
  }

  // In either direction some page size never shows one of them.
  lemma TiedRowsAreLost(reverse: bool)
    ensures StrictOrder(HistoryOrder(reverse))
    ensures var t := ApplyData(EMPTY, SelfPayment());
            !Complete(HistoryListing(t.activity, Fill(1, 32), None, reverse), RowPlace, HistoryOrder(reverse))
  {
    hide ApplyData, ActivityKey, Complete, HistoryListing;
    var ev := SelfPayment();
    var t := ApplyData(EMPTY, ev);
    ApplyShaped(EMPTY, ev);
    assert ev.activity[0] in ev.activity && ev.activity[1] in ev.activity;
    ActivityWritten(EMPTY, ev, Fill(1, 32), 1, Fill(2, 32), false);
    ActivityWritten(EMPTY, ev, Fill(1, 32), 1, Fill(2, 32), true);
    assert BothSides(t.activity, Fill(1, 32), None, 1, Fill(2, 32));
    HistoryComplete(t.activity, Fill(1, 32), None, reverse);
  }

  function SettledUnder(contract: byte): SettlementRecord {
    SettlementRecord(Fill(2, 32), 1, Fill(contract, 32), Claimed, Fill(1, 32), Fill(3, 32), 5, Fill(2, 32), 0)
  }

  function TwoTemplates(): BlockEvents {
    Quiet(1).(settlements := [SettledUnder(7), SettledUnder(8)])
  }

  // Two settlements of one transaction under two contracts: without a contract given, some
  // page size never shows one of them.
  lemma TiedSettlementsAreLost()
    ensures StrictOrder(RowCursorLt)
    ensures var t := ApplyData(EMPTY, TwoTemplates());
            !Complete(SettlementListing(t.settlements, Fill(1, 32), None, None), SettlementPlace, RowCursorLt)
  {
    hide ApplyData, SettlementKey, Complete, SettlementListing;
    var ev := TwoTemplates();
    var t := ApplyData(EMPTY, ev);
    ApplyShaped(EMPTY, ev);
    assert ev.settlements[0] in ev.settlements && ev.settlements[1] in ev.settlements;
    SettlementApplied(EMPTY, ev, SettledUnder(7));
    SettlementApplied(EMPTY, ev, SettledUnder(8));
    assert Fill(7, 32)[0] == 7 && Fill(8, 32)[0] == 8;
    assert SettlementKey(Fill(7, 32), Fill(1, 32), 1, Fill(2, 32)) in t.settlements;
    assert SettlementKey(Fill(8, 32), Fill(1, 32), 1, Fill(2, 32)) in t.settlements;
    assert TwoContracts(t.settlements, Fill(1, 32), None, 1, Fill(2, 32));
    SettlementsComplete(t.settlements, Fill(1, 32), None);
  }

  // A page limit of zero fails as soon as there is a row to show.
  lemma LimitZeroFails()
    ensures var m := WalkData(EMPTY, [LockBlock()]).htlcs;
            TakePage(HtlcListing(m, HtlcFilter(None, [], None, None)), HtlcPlace, HtlcCursorLt, 0, None) == Err
  {
    hide HtlcListing, WalkData, HtlcKey;
    AfterLock();
    var m := WalkData(EMPTY, [LockBlock()]).htlcs;
    var f := HtlcFilter(None, [], None, None);
    HtlcListingMeans(m, f);
    assert SomeLock() in HtlcListing(m, f);
  }

  // Three HTLCs: two share a hashlock, the third has a larger one.
  function ThreeLocks(): map<Bytes, HtlcRecord> {
    map[PrimaryKey(Fill(1, 32), 0) := SomeLock(),
        PrimaryKey(Fill(1, 32), 1) := SomeLock().(outputIndex := 1),
        PrimaryKey(Fill(1, 32), 2) := SomeLock().(outputIndex := 2, params := SomeLock().params.(hashLock := Fill(5, 32)))]
  }

  lemma ThreeLocksAre()
    ensures var m := ThreeLocks();
            && (forall k :: k in m ==> k == HtlcKey(m[k]))
            && (forall h: Hash :: TwoHold(m, h) <==> h == Fill(4, 32))
            && LocksHeld(m, None) == {Fill(4, 32), Fill(5, 32)}
  {
    hide PrimaryKey;
    var m := ThreeLocks();
    var k0, k1, k2 := PrimaryKey(Fill(1, 32), 0), PrimaryKey(Fill(1, 32), 1), PrimaryKey(Fill(1, 32), 2);
    PrimaryKeyInjective(Fill(1, 32), 0, Fill(1, 32), 1);
    PrimaryKeyInjective(Fill(1, 32), 0, Fill(1, 32), 2);
    PrimaryKeyInjective(Fill(1, 32), 1, Fill(1, 32), 2);
    assert Fill(4, 32)[0] == 4 && Fill(5, 32)[0] == 5;
    assert k0 in m && k1 in m && k2 in m;
    assert m[k0].params.hashLock == m[k1].params.hashLock == Fill(4, 32) && m[k2].params.hashLock == Fill(5, 32);
  }

  // Asked for no groups, the grouping returns one.
  lemma LimitZeroGroups()
    ensures var m := ThreeLocks();
            && SharedLocks(m, None) == [Fill(4, 32)]
            && Returned(SharedLocks(m, None), Ascending(LocksHeld(m, None)), 0) == 1
  {
    hide TwoHold, LocksHeld, SharedLocks, ThreeLocks, Ascending, LexLt;
    var m := ThreeLocks();
    ThreeLocksAre();
    SharedLocksMean(m, None);
    var shared, held := SharedLocks(m, None), Ascending(LocksHeld(m, None));
    LocksLess();
    forall h ensures h in shared <==> h in [Fill(4, 32)] {
      SharedAreHashes(m, h);
    }
    AscendingUnique(shared, [Fill(4, 32)]);
    AscendingUnique(held, [Fill(4, 32), Fill(5, 32)]);
  }

  lemma LocksLess()
    ensures Fill(4, 32) != Fill(5, 32) && LexLt(Fill(4, 32), Fill(5, 32))
  {
    assert Fill(4, 32)[0] == 4 && Fill(5, 32)[0] == 5;
  }

  lemma SharedAreHashes(m: map<Bytes, HtlcRecord>, h: Bytes)
    ensures h in SharedLocks(m, None) ==> |h| == 32
  {
    hide Ascending;
    FilterIn(Ascending(LocksHeld(m, None)), HeldTwice(m), h);
  }

  // ---- Settlement rows -------------------------------------------------------------------

  // Two HTLCs of one transaction with the same parties, reclaimed in one block.
  function TwoLocks(): map<Bytes, HtlcRecord> {
    map[PrimaryKey(Fill(1, 32), 0) := SomeLock(), PrimaryKey(Fill(1, 32), 1) := SomeLock().(outputIndex := 1)]
  }

  function TwoReclaims(): seq<HtlcSpend> {
    [HtlcSpend(Fill(1, 32), 0, SpendArm.Reclaim(Fill(6, 32), 0)), HtlcSpend(Fill(1, 32), 1, SpendArm.Reclaim(Fill(6, 32), 1))]
  }

  lemma FourRows(c: Crate)
    ensures var rows := Flat(SettledBy(c, TwoLocks(), 2), TwoReclaims());
            && |rows| == 4
            && (forall i :: 0 <= i < 2 ==> rows[i].lockOutputIndex == 0 && ContractKey(rows[i]) == ContractKey(rows[i + 2]))
            && (forall i :: 2 <= i < 4 ==> rows[i].lockOutputIndex == 1)
  {
    hide PrimaryKey, SettlementKey;
    var s := TwoReclaims();
    PrimaryKeyInjective(Fill(1, 32), 0, Fill(1, 32), 1);
    var f := SettledBy(c, TwoLocks(), 2);
    assert s == [s[0]] + [s[1]];
    FlatConcat(f, [s[0]], [s[1]]);
    FlatOne(f, s[0]);
    FlatOne(f, s[1]);
    assert SpendKey(s[0]) == PrimaryKey(Fill(1, 32), 0) && SpendKey(s[1]) == PrimaryKey(Fill(1, 32), 1);
    hide Flat;
    assert |f(s[0])| == 2 && |f(s[1])| == 2;
  }

  // All their settlements are written, and none of the first HTLC is left.
  lemma SettlementsCollide(c: Crate)
    ensures var ev := Quiet(2).(settlements := Flat(SettledBy(c, TwoLocks(), 2), TwoReclaims()));
            var m := ApplyData(EMPTY, ev).settlements;
            && (exists s :: s in ev.settlements && s.lockOutputIndex == 0)
            && (forall k :: k in m ==> m[k].lockOutputIndex == 1)
  {
    hide HtlcFold, ContractKey, SettledBy, Flat;
    FourRows(c);
    var ev := Quiet(2).(settlements := Flat(SettledBy(c, TwoLocks(), 2), TwoReclaims()));
    assert ev.settlements[0] in ev.settlements;
    var puts := SettlementPuts(ev);
    assert forall i :: 0 <= i < 2 ==> puts[i].key == puts[i + 2].key;
    forall k | k in PutAll(map[], puts) ensures PutAll(map[], puts)[k].lockOutputIndex == 1 {
      PutAllLast(map[], puts, k);
      var i :| 0 <= i < |puts| && puts[i] == Put(k, PutAll(map[], puts)[k]) && forall j :: i < j < |puts| ==> puts[j].key != k;
      var twin := if i < 2 then i + 2 else i;
      assert puts[twin].key == puts[i].key;
    }
  }

  // ---- Chains ---------------------------------------------------------------------------------

  function EmptyBlock(id: byte): Block {
    Block(Fill(id, 32), 0, 0, [])
  }

  function Branch(x: byte, y: byte): Node {
    Node([EmptyBlock(1), EmptyBlock(x), EmptyBlock(y)], map[])
  }

  // Two branches that differ in their last two blocks, and a store in step with the first.
  lemma DeepForkExists(c: Crate) returns (s: Store)
    ensures ForksDeeper(c, Branch(2, 3), Branch(4, 5), s, 2)
  {
    hide EventsOf, ApplyData;
    var a, b := Branch(2, 3), Branch(4, 5);
    assert Fill(1, 32)[0] == 1 && Fill(2, 32)[0] == 2 && Fill(3, 32)[0] == 3;
    assert Fill(4, 32)[0] == 4 && Fill(5, 32)[0] == 5 && ZERO_HASH[0] == 0;
    assert SoundNode(a) && SoundNode(b);
    assert a.chain == a.chain[..3];
    assert Views(a, a);
    assert FetchableRange(a, 0, 3);
    var initial := Store(EMPTY, Missing);
    s := Walked(c, a, initial, 0, 3, 0);
    WalkedInSync(c, a, a, EMPTY, initial, 0, 3, 0);
  }

  // A crate for which every long script is one HTLC.
  function OneHtlc(): Crate {
    Crate(
      (script: Bytes) => if |script| >= MIN_HTLC_SCRIPT_BYTES then Some(SomeLock().params) else None,
      (p: HtlcParams) => Fill(7, 32),
      (key: Hash) => key)
  }

  function LockingTx(): Tx {
    Tx(Some(Fill(1, 32)), true, [], [TxOutput(5, Fill(0, 100), None, None)], [])
  }

  // Reclaims the output of the first.
  function SpendingTx(): Tx {
    Tx(Some(Fill(2, 32)), false, [TxInput(Fill(1, 32), 0)], [], [[VALUE_TAG_RIGHT, VALUE_TAG_UNIT]])
  }

  // One block that holds both.
  function BothInOne(): Node {
    Node([Block(Fill(9, 32), 2, 0, [Fill(1, 32), Fill(2, 32)])],
         map[Fill(1, 32) := Some(LockingTx()), Fill(2, 32) := Some(SpendingTx())])
  }

  function SameBlockSpend(): HtlcSpend {
    HtlcSpend(Fill(1, 32), 0, SpendArm.Reclaim(Fill(2, 32), 0))
  }

  lemma BothInOneIsSound()
    ensures SoundTxs(BothInOne())
    ensures var node := BothInOne();
            && InBlock(node, node.chain[0], Fill(1, 32)) && node.txs[Fill(1, 32)].value == LockingTx()
            && InBlock(node, node.chain[0], Fill(2, 32)) && node.txs[Fill(2, 32)].value == SpendingTx()
  {
    assert Fill(1, 32)[0] == 1 && Fill(2, 32)[0] == 2;
    var ids := BothInOne().chain[0].transactions;
    assert ids[0] == Fill(1, 32) && ids[1] == Fill(2, 32);
  }

  lemma SpendIsExtracted()
    ensures SameBlockSpend() in Extracted(OneHtlc(), SpendingTx(), 0).spends
  {
    SpendsExactly(OneHtlc(), SpendingTx(), 0, SameBlockSpend());
    assert SpendsInput(SpendingTx(), Fill(2, 32), 0, SameBlockSpend());
  }

  // Walking this chain again over its own rows ends in another store than the first walk.
  lemma SecondWalkDiffers()
    ensures var c, node := OneHtlc(), BothInOne();
            && SoundTxs(node)
            && Follow(c, node, Straight(c, node, 1), 0, 1) != Straight(c, node, 1)
  {
    hide SoundTxs, ApplyData, PrimaryKey, Extracted, Flat, Bodies;
    var c, node, s := OneHtlc(), BothInOne(), SameBlockSpend();
    BothInOneIsSound();
    SoundParts(node);
    hide OwnIds;
    SpendIsExtracted();
    assert s in SpendsOf(c, 0)(SpendingTx());
    FromBlock(SpendsOf(c, 0), node, node.chain[0], s);
    SpendsOfEvents(c, node, 0, s);
    EventListAt(c, node, 1, 0);
    assert HoldsHtlc(c, node, node.chain[0], Fill(1, 32), 0);
    HtlcsOnChain(c, node, 1, Fill(1, 32), 0);
    assert SpendKey(s) == PrimaryKey(Fill(1, 32), 0);
    var base := Straight(c, node, 1);
    hide Follow, EventsOf, EventList;
    FollowNothing(c, node, EMPTY);
    assert SpendKey(s) in base.htlcs && SpendKey(s) !in Straight(c, node, 0).htlcs;
    assert !LockedBefore(c, node, base, 1);
    BackfillConverges(c, node, base, 1, 1);
  }
}
