/**
 What one block, and one rewind, do to the rows of the store. The four HTLC
 indexes and the address-keyed settlement mirror are not listed here: they are
 functions of these tables, and `Db.Valid` holds them to that.
 */
module Tables {
  import opened ByteStrings
  import opened Records
  import opened Keys
  import opened Folds

  datatype Tables = Tables(
    htlcs: map<Bytes, HtlcRecord>,
    settlements: map<Bytes, SettlementRecord>,
    activity: map<Bytes, ActivityValue>,
    spentBy: map<Bytes, SpentByEntry>,
    datums: map<Bytes, OutputDatumRecord>,
    quotes: set<Bytes>,
    blocks: map<Bytes, BlockMeta>)

  const EMPTY := Tables(map[], map[], map[], map[], map[], {}, map[])

  // The tables together with the follower's checkpoint.
  datatype Store = Store(data: Tables, checkpoint: Checkpoint)

  // ---- HTLC rows ------------------------------------------------------------

  datatype HtlcOp = Lock(record: HtlcRecord) | Spend(spend: HtlcSpend, height: u64)
  {
    function Key(): Bytes {
      match this
      case Lock(r) => HtlcKey(r)
      case Spend(s, _) => SpendKey(s)
    }
  }

  // A record as its spend leaves it.
  function Advance(r: HtlcRecord, arm: SpendArm, height: u64): HtlcRecord {
    match arm
    case Claim(preimage, txId, inputIndex) =>
      r.(state := Claimed, claim := Some(HtlcClaim(txId, preimage, height, inputIndex)), lastIndexedHeight := height)
    case Reclaim(txId, inputIndex) =>
      r.(state := Reclaimed, reclaim := Some(HtlcReclaim(txId, height, inputIndex)), lastIndexedHeight := height)
  }

  // What a spend writes into an open record: the outcome, with the settling transaction,
  // preimage, input and height, and the height of the last change. The rest stays.
  lemma AdvanceWrites(r: HtlcRecord, arm: SpendArm, height: u64)
    requires r.claim.None? && r.reclaim.None?
    ensures var r' := Advance(r, arm, height);
            && r'.lastIndexedHeight == height
            && r'.lockTxId == r.lockTxId && r'.outputIndex == r.outputIndex && r'.params == r.params
            && r'.amount == r.amount && r'.lockBlockHeight == r.lockBlockHeight && r'.role == r.role
            && (arm.Claim? ==> r'.state == Claimed && r'.reclaim == None
                               && r'.claim == Some(HtlcClaim(arm.spendingTxId, arm.preimage, height, arm.inputIndex)))
            && (arm.Reclaim? ==> r'.state == Reclaimed && r'.claim == None
                                 && r'.reclaim == Some(HtlcReclaim(arm.spendingTxId, height, arm.inputIndex)))
  {}

  // A lock replaces whatever is at its outpoint; a spend advances an unsettled record and nothing else.
  function HtlcStep(m: map<Bytes, HtlcRecord>, op: HtlcOp): map<Bytes, HtlcRecord> {
    match op
    case Lock(r) => m[HtlcKey(r) := r]
    case Spend(s, height) =>
      var k := SpendKey(s);
      if k in m && !m[k].Settled() then m[k := Advance(m[k], s.arm, height)] else m
  }

  function HtlcFold(m: map<Bytes, HtlcRecord>, ops: seq<HtlcOp>): map<Bytes, HtlcRecord>
    decreases |ops|
  {
    if ops == [] then m else HtlcFold(HtlcStep(m, ops[0]), ops[1..])
  }

  // All locks of a block come before all of its spends.
  function LockOps(ev: BlockEvents): seq<HtlcOp> {
    seq(|ev.locks|, i requires 0 <= i < |ev.locks| => Lock(ev.locks[i]))
  }

  function SpendOps(ev: BlockEvents): seq<HtlcOp> {
    seq(|ev.spends|, i requires 0 <= i < |ev.spends| => Spend(ev.spends[i], ev.height))
  }

  function HtlcOps(ev: BlockEvents): seq<HtlcOp> {
    LockOps(ev) + SpendOps(ev)
  }

  // ---- Plain rows -----------------------------------------------------------

  function SettlementPuts(ev: BlockEvents): seq<Put<Bytes, SettlementRecord>> {
    seq(|ev.settlements|, i requires 0 <= i < |ev.settlements| => Put(ContractKey(ev.settlements[i]), ev.settlements[i]))
  }

  function ActivityPut(a: AddressActivity, height: u64): Put<Bytes, ActivityValue> {
    Put(ActivityKey(a.address, height, a.txId, if a.isInput then DIR_INPUT_FROM else DIR_OUTPUT_TO),
        ActivityValue(a.amount, a.isCoinbase, a.counterparties))
  }

  function ActivityPuts(ev: BlockEvents): seq<Put<Bytes, ActivityValue>> {
    seq(|ev.activity|, i requires 0 <= i < |ev.activity| => ActivityPut(ev.activity[i], ev.height))
  }

  function SpentByPuts(ev: BlockEvents): seq<Put<Bytes, SpentByEntry>> {
    seq(|ev.spentBy|, i requires 0 <= i < |ev.spentBy| =>
      Put(SpentByKey(ev.spentBy[i]), ev.spentBy[i]))
  }

  function DatumKey(od: OutputDatum): Bytes {
    PrimaryKey(od.txId, od.outputIndex)
  }

  function DatumPuts(ev: BlockEvents): seq<Put<Bytes, OutputDatumRecord>> {
    seq(|ev.outputDatums|, i requires 0 <= i < |ev.outputDatums| =>
      Put(DatumKey(ev.outputDatums[i]),
          OutputDatumRecord(ev.outputDatums[i].quoteId, ev.outputDatums[i].unhonorable, ev.height)))
  }

  // The reverse-index row of a forward row, from its key and value: only a row
  // that carries a quote id has one.
  function ReverseKeys(k: Bytes, d: OutputDatumRecord): set<Bytes> {
    Widths();
    if |k| != 36 || d.quoteId.None? then {} else {QuoteKey(d.quoteId.value, k[..32], FromBE(k[32..]))}
  }

  function QuoteKeys(ps: seq<Put<Bytes, OutputDatumRecord>>): set<Bytes> {
    set p, q | p in ps && q in ReverseKeys(p.key, p.value) :: q
  }

  function BlockPuts(ev: BlockEvents): seq<Put<Bytes, BlockMeta>> {
    [Put(BlockKey(ev.height), BlockMeta(ev.blockId, ev.txCount, ev.timestamp))]
  }

  // ---- One block ------------------------------------------------------------

  function ApplyData(t: Tables, ev: BlockEvents): Tables {
    Tables(
      HtlcFold(t.htlcs, HtlcOps(ev)),
      PutAll(t.settlements, SettlementPuts(ev)),
      PutAll(t.activity, ActivityPuts(ev)),
      PutAll(t.spentBy, SpentByPuts(ev)),
      PutAll(t.datums, DatumPuts(ev)),
      t.quotes + QuoteKeys(DatumPuts(ev)),
      PutAll(t.blocks, BlockPuts(ev)))
  }

  function CheckpointAfter(ev: BlockEvents): Checkpoint {
    Stored(FollowerMeta(ev.height, ev.blockId, ev.fullScanComplete, ev.startedAt, SCHEMA_VERSION))
  }

  function Apply(s: Store, ev: BlockEvents): Store {
    Store(ApplyData(s.data, ev), CheckpointAfter(ev))
  }

  // The checkpoint a block leaves carries the block and is stamped with the current version.
  lemma CheckpointSays(s: Store, ev: BlockEvents)
    ensures var c := Apply(s, ev).checkpoint;
            && c.Stored? && c.meta.lastIndexedHeight == ev.height && c.meta.lastIndexedBlockId == ev.blockId
            && c.meta.fullScanComplete == ev.fullScanComplete && c.meta.startedAt == ev.startedAt && c.meta.schemaVersion == 1
  {}

  // The straight walk of a block sequence.
  function WalkData(t: Tables, bs: seq<BlockEvents>): Tables
    decreases |bs|
  {
    if bs == [] then t else WalkData(ApplyData(t, bs[0]), bs[1..])
  }

  function Walk(s: Store, bs: seq<BlockEvents>): Store {
    Store(WalkData(s.data, bs), if bs == [] then s.checkpoint else CheckpointAfter(bs[|bs| - 1]))
  }

  // ---- One rewind -----------------------------------------------------------

  // The height a key carries at byte `at`; a key too short to carry one is never dropped.
  function KeyHeight(k: Bytes, at: nat): nat {
    if |k| >= at + 8 then FromBE(k[at..at + 8]) else 0
  }

  // The height each table's rows are wiped by.
  function HtlcHeight(k: Bytes, r: HtlcRecord): nat { r.LockHeight() }
  function SettlementHeight(k: Bytes, s: SettlementRecord): nat { KeyHeight(k, 64) }
  function ActivityHeight(k: Bytes, a: ActivityValue): nat { KeyHeight(k, 32) }
  function SpentByHeight(k: Bytes, s: SpentByEntry): nat { s.blockHeight }
  function DatumHeight(k: Bytes, d: OutputDatumRecord): nat { d.blockHeight }
  function BlockHeight(k: Bytes, b: BlockMeta): nat { KeyHeight(k, 0) }

  function Keep<V>(m: map<Bytes, V>, height: (Bytes, V) -> nat, cut: nat): map<Bytes, V> {
    map k | k in m && height(k, m[k]) <= cut :: m[k]
  }

  function DroppedQuotes(datums: map<Bytes, OutputDatumRecord>, cut: nat): set<Bytes> {
    set k, q | k in datums && datums[k].blockHeight > cut && q in ReverseKeys(k, datums[k]) :: q
  }

  // The shapes of the stored keys; every transition keeps them.
  ghost predicate Shaped(t: Tables) {
    && (forall k :: k in t.htlcs ==> k == HtlcKey(t.htlcs[k]))
    && (forall k :: k in t.settlements ==> k == ContractKey(t.settlements[k]))
    && (forall k :: k in t.activity ==> |k| == 73 && (k[72] == DIR_OUTPUT_TO || k[72] == DIR_INPUT_FROM))
    && (forall k :: k in t.spentBy ==> k == SpentByKey(t.spentBy[k]))
    && (forall k :: k in t.datums ==> |k| == 36)
    && (forall k :: k in t.blocks ==> |k| == 8)
  }

  function WipeData(t: Tables, cut: u64): Tables
  {
    Tables(
      Keep(t.htlcs, HtlcHeight, cut),
      Keep(t.settlements, SettlementHeight, cut),
      Keep(t.activity, ActivityHeight, cut),
      Keep(t.spentBy, SpentByHeight, cut),
      Keep(t.datums, DatumHeight, cut),
      t.quotes - DroppedQuotes(t.datums, cut),
      Keep(t.blocks, BlockHeight, cut))
  }

  // ---- Shapes are kept ------------------------------------------------------

  lemma {:induction false} HtlcFoldShaped(m: map<Bytes, HtlcRecord>, ops: seq<HtlcOp>)
    requires forall k :: k in m ==> k == HtlcKey(m[k])
    ensures forall k :: k in HtlcFold(m, ops) ==> k == HtlcKey(HtlcFold(m, ops)[k])
    decreases |ops|
  {
    if ops != [] {
      HtlcFoldShaped(HtlcStep(m, ops[0]), ops[1..]);
    }
  }

  lemma ApplyShaped(t: Tables, ev: BlockEvents)
    requires Shaped(t)
    ensures Shaped(ApplyData(t, ev))
  {
    HtlcFoldShaped(t.htlcs, HtlcOps(ev));
    PutAllKeeps(t.settlements, SettlementPuts(ev), (k, v) => k == ContractKey(v));
    PutAllKeeps(t.activity, ActivityPuts(ev), (k: Bytes, v) => |k| == 73 && (k[72] == DIR_OUTPUT_TO || k[72] == DIR_INPUT_FROM));
    PutAllKeeps(t.spentBy, SpentByPuts(ev), (k, v) => k == SpentByKey(v));
    PutAllKeeps(t.datums, DatumPuts(ev), (k, v) => |k| == 36);
    PutAllKeeps(t.blocks, BlockPuts(ev), (k, v) => |k| == 8);
  }

  lemma {:induction false} WalkShaped(t: Tables, bs: seq<BlockEvents>)
    requires Shaped(t)
    ensures Shaped(WalkData(t, bs))
    decreases |bs|
  {
    if bs != [] {
      ApplyShaped(t, bs[0]);
      WalkShaped(ApplyData(t, bs[0]), bs[1..]);
    }
  }

  lemma WipeShaped(t: Tables, cut: u64)
    requires Shaped(t)
    ensures Shaped(WipeData(t, cut))
  {}

  // ---- A walk, table by table ----------------------------------------------

  lemma {:induction false} HtlcFoldConcat(m: map<Bytes, HtlcRecord>, ops: seq<HtlcOp>, more: seq<HtlcOp>)
    ensures HtlcFold(m, ops + more) == HtlcFold(HtlcFold(m, ops), more)
    decreases |ops|
  {
    if ops == [] {
      assert ops + more == more;
    } else {
      assert (ops + more)[1..] == ops[1..] + more;
      HtlcFoldConcat(HtlcStep(m, ops[0]), ops[1..], more);
    }
  }

  lemma HtlcFoldSnoc(m: map<Bytes, HtlcRecord>, ops: seq<HtlcOp>, i: nat)
    requires i < |ops|
    ensures HtlcFold(m, ops[..i + 1]) == HtlcStep(HtlcFold(m, ops[..i]), ops[i])
  {
    assert ops[..i + 1] == ops[..i] + [ops[i]];
    HtlcFoldConcat(m, ops[..i], [ops[i]]);
  }

  // The walk of a block sequence is, table by table, one stream of operations.
  lemma {:induction false} WalkStreams(t: Tables, bs: seq<BlockEvents>)
    ensures WalkData(t, bs) == Tables(
      HtlcFold(t.htlcs, Flat(HtlcOps, bs)),
      PutAll(t.settlements, Flat(SettlementPuts, bs)),
      PutAll(t.activity, Flat(ActivityPuts, bs)),
      PutAll(t.spentBy, Flat(SpentByPuts, bs)),
      PutAll(t.datums, Flat(DatumPuts, bs)),
      t.quotes + QuoteKeys(Flat(DatumPuts, bs)),
      PutAll(t.blocks, Flat(BlockPuts, bs)))
    decreases |bs|
  {
    if bs != [] {
      var b, rest := bs[0], bs[1..];
      WalkStreams(ApplyData(t, b), rest);
      HtlcFoldConcat(t.htlcs, HtlcOps(b), Flat(HtlcOps, rest));
      PutAllConcat(t.settlements, SettlementPuts(b), Flat(SettlementPuts, rest));
      PutAllConcat(t.activity, ActivityPuts(b), Flat(ActivityPuts, rest));
      PutAllConcat(t.spentBy, SpentByPuts(b), Flat(SpentByPuts, rest));
      PutAllConcat(t.datums, DatumPuts(b), Flat(DatumPuts, rest));
      PutAllConcat(t.blocks, BlockPuts(b), Flat(BlockPuts, rest));
    }
  }

  lemma {:induction false} WalkConcat(t: Tables, bs: seq<BlockEvents>, cs: seq<BlockEvents>)
    ensures WalkData(t, bs + cs) == WalkData(WalkData(t, bs), cs)
    decreases |bs|
  {
    if bs == [] {
      assert bs + cs == cs;
    } else {
      assert (bs + cs)[1..] == bs[1..] + cs;
      WalkConcat(ApplyData(t, bs[0]), bs[1..], cs);
    }
  }
}
