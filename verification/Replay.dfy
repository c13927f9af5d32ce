/**
 What a walk of blocks leaves at one outpoint, and why walking blocks again over
 a store that already holds them ends in the store of a single walk.
 */
module Replay {
  import opened ByteStrings
  import opened Records
  import opened Keys
  import opened Folds
  import opened Tables

  function Get<K, V>(m: map<K, V>, k: K): Option<V> {
    if k in m then Some(m[k]) else None
  }

  // ---- One outpoint ---------------------------------------------------------

  function CellStep(c: Option<HtlcRecord>, op: HtlcOp, k: Bytes): Option<HtlcRecord> {
    if op.Key() != k then c
    else match op
      case Lock(r) => Some(r)
      case Spend(s, height) =>
        if c.Some? && !c.value.Settled() then Some(Advance(c.value, s.arm, height)) else c
  }

  function Cell(c: Option<HtlcRecord>, ops: seq<HtlcOp>, k: Bytes): Option<HtlcRecord>
    decreases |ops|
  {
    if ops == [] then c else Cell(CellStep(c, ops[0], k), ops[1..], k)
  }

  lemma {:induction false} FoldCell(m: map<Bytes, HtlcRecord>, ops: seq<HtlcOp>, k: Bytes)
    ensures Get(HtlcFold(m, ops), k) == Cell(Get(m, k), ops, k)
    decreases |ops|
  {
    if ops != [] {
      FoldCell(HtlcStep(m, ops[0]), ops[1..], k);
    }
  }

  lemma {:induction false} CellConcat(c: Option<HtlcRecord>, ops: seq<HtlcOp>, more: seq<HtlcOp>, k: Bytes)
    ensures Cell(c, ops + more, k) == Cell(Cell(c, ops, k), more, k)
    decreases |ops|
  {
    if ops == [] {
      assert ops + more == more;
    } else {
      assert (ops + more)[1..] == ops[1..] + more;
      CellConcat(CellStep(c, ops[0], k), ops[1..], more, k);
    }
  }

  ghost predicate LocksNothingAt(ops: seq<HtlcOp>, k: Bytes) {
    forall i :: 0 <= i < |ops| ==> ops[i].Lock? ==> ops[i].Key() != k
  }

  // The first classified spend of an outpoint in a stream.
  function FirstSpend(ops: seq<HtlcOp>, k: Bytes): Option<HtlcOp> {
    if ops == [] then None
    else if ops[0].Spend? && ops[0].Key() == k then Some(ops[0])
    else FirstSpend(ops[1..], k)
  }

  // A record advanced by a spend, unless there is none or it is settled already.
  function AdvanceBy(r: HtlcRecord, spend: Option<HtlcOp>): HtlcRecord {
    if spend.Some? && spend.value.Spend? && !r.Settled()
    then Advance(r, spend.value.spend.arm, spend.value.height)
    else r
  }

  lemma {:induction false} CellUnlocked(c: Option<HtlcRecord>, ops: seq<HtlcOp>, k: Bytes)
    requires LocksNothingAt(ops, k)
    ensures Cell(c, ops, k) == if c.None? then None else Some(AdvanceBy(c.value, FirstSpend(ops, k)))
    decreases |ops|
  {
    if ops != [] {
      CellUnlocked(CellStep(c, ops[0], k), ops[1..], k);
    }
  }

  lemma {:induction false} FirstSpendConcat(ops: seq<HtlcOp>, more: seq<HtlcOp>, k: Bytes)
    ensures FirstSpend(ops + more, k) == if FirstSpend(ops, k).Some? then FirstSpend(ops, k) else FirstSpend(more, k)
  {
    if ops == [] {
      assert ops + more == more;
    } else {
      assert (ops + more)[1..] == ops[1..] + more;
      FirstSpendConcat(ops[1..], more, k);
    }
  }

  // ---- The last lock of an outpoint ----------------------------------------

  function LastLockIn(locks: seq<HtlcRecord>, k: Bytes): Option<HtlcRecord> {
    if locks == [] then None
    else if HtlcKey(locks[|locks| - 1]) == k then Some(locks[|locks| - 1])
    else LastLockIn(locks[..|locks| - 1], k)
  }

  datatype Locking = Locking(block: nat, record: HtlcRecord)

  function LastLock(bs: seq<BlockEvents>, k: Bytes): (l: Option<Locking>)
    ensures l.Some? ==> l.value.block < |bs|
  {
    if bs == [] then None
    else
      var n := |bs| - 1;
      match LastLockIn(bs[n].locks, k)
      case Some(r) => Some(Locking(n, r))
      case None => LastLock(bs[..n], k)
  }

  lemma {:induction false} LastLockInMeans(locks: seq<HtlcRecord>, k: Bytes)
    ensures LastLockIn(locks, k).None? <==> forall i :: 0 <= i < |locks| ==> HtlcKey(locks[i]) != k
    ensures LastLockIn(locks, k).Some? ==> LastLockIn(locks, k).value in locks && HtlcKey(LastLockIn(locks, k).value) == k
  {
    if locks != [] && HtlcKey(locks[|locks| - 1]) != k {
      LastLockInMeans(locks[..|locks| - 1], k);
      assert forall i :: 0 <= i < |locks| - 1 ==> locks[i] == locks[..|locks| - 1][i];
    }
  }

  lemma {:induction false} CellOfLocks(c: Option<HtlcRecord>, ev: BlockEvents, i: nat, k: Bytes)
    requires i <= |ev.locks|
    ensures Cell(c, LockOps(ev)[..i], k) ==
            if LastLockIn(ev.locks[..i], k).Some? then LastLockIn(ev.locks[..i], k) else c
  {
    if i > 0 {
      CellOfLocks(c, ev, i - 1, k);
      assert LockOps(ev)[..i] == LockOps(ev)[..i - 1] + [Lock(ev.locks[i - 1])];
      CellConcat(c, LockOps(ev)[..i - 1], [Lock(ev.locks[i - 1])], k);
      assert ev.locks[..i][..i - 1] == ev.locks[..i - 1];
    }
  }

  lemma CellOfBlock(c: Option<HtlcRecord>, ev: BlockEvents, k: Bytes)
    ensures Cell(c, HtlcOps(ev), k) == OutcomeOfBlock(c, ev, k)
  {
    assert ev.locks[..|ev.locks|] == ev.locks && LockOps(ev)[..|ev.locks|] == LockOps(ev);
    CellOfLocks(c, ev, |ev.locks|, k);
    CellConcat(c, LockOps(ev), SpendOps(ev), k);
    CellUnlocked(Cell(c, LockOps(ev), k), SpendOps(ev), k);
  }

  lemma AdvanceTwice(r: HtlcRecord, first: Option<HtlcOp>, second: Option<HtlcOp>)
    requires first.Some? ==> first.value.Spend?
    ensures AdvanceBy(AdvanceBy(r, first), second) == AdvanceBy(r, if first.Some? then first else second)
  {}

  lemma {:induction false} FirstSpendIsSpend(ops: seq<HtlcOp>, k: Bytes)
    ensures FirstSpend(ops, k).Some? ==> FirstSpend(ops, k).value.Spend? && FirstSpend(ops, k).value.Key() == k
    ensures FirstSpend(ops, k).Some? ==> FirstSpend(ops, k).value in ops
  {
    if ops != [] {
      FirstSpendIsSpend(ops[1..], k);
    }
  }

  // What a walk leaves at an outpoint: its last lock, advanced by the first classified
  // spend of that block or a later one; without a lock, the row the walk started from.
  function Outcome(before: Option<HtlcRecord>, bs: seq<BlockEvents>, k: Bytes): Option<HtlcRecord> {
    match LastLock(bs, k)
    case Some(l) => Some(AdvanceBy(l.record, FirstSpend(Flat(SpendOps, bs[l.block..]), k)))
    case None => if before.None? then None else Some(AdvanceBy(before.value, FirstSpend(Flat(SpendOps, bs), k)))
  }

  function OutcomeOfBlock(before: Option<HtlcRecord>, ev: BlockEvents, k: Bytes): Option<HtlcRecord> {
    match (if LastLockIn(ev.locks, k).Some? then LastLockIn(ev.locks, k) else before)
    case Some(r) => Some(AdvanceBy(r, FirstSpend(SpendOps(ev), k)))
    case None => None
  }

  lemma SpendsSnoc(bs: seq<BlockEvents>, last: BlockEvents, k: Bytes, r: HtlcRecord)
    ensures AdvanceBy(r, FirstSpend(Flat(SpendOps, bs + [last]), k)) ==
            AdvanceBy(AdvanceBy(r, FirstSpend(Flat(SpendOps, bs), k)), FirstSpend(SpendOps(last), k))
  {
    FlatConcat(SpendOps, bs, [last]);
    FlatOne(SpendOps, last);
    FirstSpendConcat(Flat(SpendOps, bs), SpendOps(last), k);
    FirstSpendIsSpend(Flat(SpendOps, bs), k);
    AdvanceTwice(r, FirstSpend(Flat(SpendOps, bs), k), FirstSpend(SpendOps(last), k));
  }

  lemma OutcomeSnoc(c: Option<HtlcRecord>, bs: seq<BlockEvents>, last: BlockEvents, k: Bytes)
    ensures Outcome(c, bs + [last], k) == OutcomeOfBlock(Outcome(c, bs, k), last, k)
  {
    var all := bs + [last];
    assert all[..|bs|] == bs && all[|bs|] == last;
    if LastLockIn(last.locks, k).Some? {
      assert all[|bs|..] == [last];
      FlatOne(SpendOps, last);
    } else {
      assert LastLock(all, k) == LastLock(bs, k);
      match LastLock(bs, k)
      case Some(l) =>
        assert all[l.block..] == bs[l.block..] + [last];
        SpendsSnoc(bs[l.block..], last, k, l.record);
      case None =>
        if c.Some? {
          SpendsSnoc(bs, last, k, c.value);
        }
    }
  }

  lemma CellSnoc(c: Option<HtlcRecord>, bs: seq<BlockEvents>, last: BlockEvents, k: Bytes)
    ensures Cell(c, Flat(HtlcOps, bs + [last]), k) == OutcomeOfBlock(Cell(c, Flat(HtlcOps, bs), k), last, k)
  {
    FlatConcat(HtlcOps, bs, [last]);
    FlatOne(HtlcOps, last);
    CellConcat(c, Flat(HtlcOps, bs), HtlcOps(last), k);
    CellOfBlock(Cell(c, Flat(HtlcOps, bs), k), last, k);
  }

  lemma {:induction false} CellOfWalk(c: Option<HtlcRecord>, bs: seq<BlockEvents>, k: Bytes)
    ensures Cell(c, Flat(HtlcOps, bs), k) == Outcome(c, bs, k)
  {
    if bs != [] {
      var n := |bs| - 1;
      assert bs == bs[..n] + [bs[n]];
      CellOfWalk(c, bs[..n], k);
      CellSnoc(c, bs[..n], bs[n], k);
      OutcomeSnoc(c, bs[..n], bs[n], k);
    }
  }

  lemma HtlcRefinement(t: Tables, bs: seq<BlockEvents>, k: Bytes)
    ensures Get(WalkData(t, bs).htlcs, k) == Outcome(Get(t.htlcs, k), bs, k)
  {
    WalkStreams(t, bs);
    FoldCell(t.htlcs, Flat(HtlcOps, bs), k);
    CellOfWalk(Get(t.htlcs, k), bs, k);
  }

  // ---- Walking again --------------------------------------------------------

  // Every row of `t` has a key that a straight walk of `bs` writes.
  ghost predicate Covered(t: Tables, bs: seq<BlockEvents>) {
    var straight := WalkData(EMPTY, bs);
    && t.htlcs.Keys <= straight.htlcs.Keys
    && t.settlements.Keys <= straight.settlements.Keys
    && t.activity.Keys <= straight.activity.Keys
    && t.spentBy.Keys <= straight.spentBy.Keys
    && t.datums.Keys <= straight.datums.Keys
    && t.quotes <= straight.quotes
    && t.blocks.Keys <= straight.blocks.Keys
  }

  lemma MapsEqual<K, V>(m: map<K, V>, m': map<K, V>)
    requires forall k :: Get(m, k) == Get(m', k)
    ensures m == m'
  {
    assert forall k :: k in m <==> Get(m, k).Some?;
    assert forall k :: k in m' <==> Get(m', k).Some?;
    assert forall k :: k in m ==> Get(m, k).value == m[k];
    assert forall k :: k in m' ==> Get(m', k).value == m'[k];
  }

  lemma HtlcsReWalk(t: Tables, bs: seq<BlockEvents>)
    ensures WalkData(t, bs).htlcs == WalkData(EMPTY, bs).htlcs <==> t.htlcs.Keys <= WalkData(EMPTY, bs).htlcs.Keys
  {
    var again, straight := WalkData(t, bs).htlcs, WalkData(EMPTY, bs).htlcs;
    forall k ensures Get(again, k) == Outcome(Get(t.htlcs, k), bs, k) && Get(straight, k) == Outcome(None, bs, k) {
      HtlcRefinement(t, bs, k);
      HtlcRefinement(EMPTY, bs, k);
    }
    if again == straight {
      forall k | k in t.htlcs ensures k in straight {
        assert Get(again, k).Some?;
      }
    } else if t.htlcs.Keys <= straight.Keys {
      forall k ensures Get(again, k) == Get(straight, k) {
        assert k in t.htlcs ==> Get(straight, k).Some?;
      }
      MapsEqual(again, straight);
    }
  }

  lemma PutsReWalk<K, V>(m: map<K, V>, ps: seq<Put<K, V>>)
    ensures PutAll(m, ps) == PutAll(map[], ps) <==> m.Keys <= PutAll(map[], ps).Keys
  {
    PutAllOverlays(m, ps);
  }

  // Walking blocks over an existing store gives the store of a walk from empty, in every
  // table, exactly when the store holds no row foreign to those blocks.
  lemma ReWalk(s: Store, c: Checkpoint, bs: seq<BlockEvents>)
    requires bs != []
    ensures Walk(s, bs) == Walk(Store(EMPTY, c), bs) <==> Covered(s.data, bs)
  {
    var t := s.data;
    WalkStreams(t, bs);
    WalkStreams(EMPTY, bs);
    HtlcsReWalk(t, bs);
    PutsReWalk(t.settlements, Flat(SettlementPuts, bs));
    PutsReWalk(t.activity, Flat(ActivityPuts, bs));
    PutsReWalk(t.spentBy, Flat(SpentByPuts, bs));
    PutsReWalk(t.datums, Flat(DatumPuts, bs));
    PutsReWalk(t.blocks, Flat(BlockPuts, bs));
    assert t.quotes + QuoteKeys(Flat(DatumPuts, bs)) == {} + QuoteKeys(Flat(DatumPuts, bs))
      <==> t.quotes <= {} + QuoteKeys(Flat(DatumPuts, bs));
  }

  lemma WalkOnlyGrows(t: Tables, bs: seq<BlockEvents>)
    ensures t.htlcs.Keys <= WalkData(t, bs).htlcs.Keys
    ensures t.settlements.Keys <= WalkData(t, bs).settlements.Keys
    ensures t.activity.Keys <= WalkData(t, bs).activity.Keys
    ensures t.spentBy.Keys <= WalkData(t, bs).spentBy.Keys
    ensures t.datums.Keys <= WalkData(t, bs).datums.Keys
    ensures t.quotes <= WalkData(t, bs).quotes
    ensures t.blocks.Keys <= WalkData(t, bs).blocks.Keys
  {
    WalkStreams(t, bs);
    PutAllOverlays(t.settlements, Flat(SettlementPuts, bs));
    PutAllOverlays(t.activity, Flat(ActivityPuts, bs));
    PutAllOverlays(t.spentBy, Flat(SpentByPuts, bs));
    PutAllOverlays(t.datums, Flat(DatumPuts, bs));
    PutAllOverlays(t.blocks, Flat(BlockPuts, bs));
    forall k | k in t.htlcs ensures k in WalkData(t, bs).htlcs {
      HtlcRefinement(t, bs, k);
    }
  }

  // The backfill: a store built from the first `n` blocks, with its datum tables or (as
  // before they existed) without them, re-walked from genesis, ends as one straight walk.
  lemma Backfill(bs: seq<BlockEvents>, n: nat, c: Checkpoint, c': Checkpoint)
    requires bs != [] && n <= |bs|
    ensures var old' := WalkData(EMPTY, bs[..n]);
            && Walk(Store(old', c), bs) == Walk(Store(EMPTY, c'), bs)
            && Walk(Store(old'.(datums := map[], quotes := {}), c), bs) == Walk(Store(EMPTY, c'), bs)
  {
    var old' := WalkData(EMPTY, bs[..n]);
    assert bs == bs[..n] + bs[n..];
    WalkConcat(EMPTY, bs[..n], bs[n..]);
    WalkOnlyGrows(old', bs[n..]);
    ReWalk(Store(old', c), c', bs);
    ReWalk(Store(old'.(datums := map[], quotes := {}), c), c', bs);
  }

  // Applying blocks that were just applied changes nothing, whatever the store held before.
  lemma ReplayIdempotent(s: Store, bs: seq<BlockEvents>)
    ensures Walk(Walk(s, bs), bs) == Walk(s, bs)
  {
    var t := s.data;
    var once := WalkData(t, bs);
    WalkStreams(t, bs);
    WalkStreams(once, bs);
    forall k ensures Get(WalkData(once, bs).htlcs, k) == Get(once.htlcs, k) {
      HtlcRefinement(t, bs, k);
      HtlcRefinement(once, bs, k);
      FirstSpendIsSpend(Flat(SpendOps, bs), k);
    }
    MapsEqual(WalkData(once, bs).htlcs, once.htlcs);
    PutTwice(t.settlements, Flat(SettlementPuts, bs));
    PutTwice(t.activity, Flat(ActivityPuts, bs));
    PutTwice(t.spentBy, Flat(SpentByPuts, bs));
    PutTwice(t.datums, Flat(DatumPuts, bs));
    PutTwice(t.blocks, Flat(BlockPuts, bs));
  }

  lemma PutTwice<K, V>(m: map<K, V>, ps: seq<Put<K, V>>)
    ensures PutAll(PutAll(m, ps), ps) == PutAll(m, ps)
  {
    PutAllOverlays(m, ps);
    PutAllOverlays(PutAll(m, ps), ps);
  }
}
