/**
 What the follower's walk means for whole chains: forks of one block, deeper forks,
 and the walk from genesis over a store that already holds the blocks.
 */
module Forks {
  import opened ByteStrings
  import opened Records
  import opened Keys
  import opened Folds
  import opened Tables
  import opened Replay
  import opened Rewind
  import opened Runs
  import opened Extract
  import opened Blocks
  import opened Following
  import opened Sessions

  // ---- The follower's blocks as one walk -------------------------------------------

  // The tables of the first `n` blocks, walked from empty without interruption.
  function Straight(c: Crate, node: Node, n: nat): Tables
    requires n <= |node.chain| <= U64_MAX
  {
    Follow(c, node, EMPTY, 0, n)
  }

  // The events of the first `n` blocks, as a follower starting on empty tables builds them.
  function EventList(c: Crate, node: Node, n: nat): (bs: seq<BlockEvents>)
    requires n <= |node.chain| <= U64_MAX
    ensures |bs| == n
  {
    if n == 0 then [] else EventList(c, node, n - 1) + [EventsAt(c, node, n - 1, Straight(c, node, n - 1).htlcs, 0)]
  }

  lemma {:induction false} StraightIsWalk(c: Crate, node: Node, n: nat)
    requires n <= |node.chain| <= U64_MAX
    ensures Straight(c, node, n) == WalkData(EMPTY, EventList(c, node, n))
  {
    hide EventsOf, ApplyData;
    if n > 0 {
      StraightIsWalk(c, node, n - 1);
      var last := EventsAt(c, node, n - 1, Straight(c, node, n - 1).htlcs, 0);
      WalkConcat(EMPTY, EventList(c, node, n - 1), [last]);
      WalkOne(WalkData(EMPTY, EventList(c, node, n - 1)), last);
    }
  }

  lemma WalkOne(t: Tables, ev: BlockEvents)
    ensures WalkData(t, [ev]) == ApplyData(t, ev)
  {
    assert WalkData(t, [ev]) == WalkData(ApplyData(t, ev), []);
  }

  lemma {:induction false} EventListAt(c: Crate, node: Node, n: nat, h: nat)
    requires h < n <= |node.chain| <= U64_MAX
    ensures EventList(c, node, n)[h] == EventsAt(c, node, h, Straight(c, node, h).htlcs, 0)
  {
    hide EventsOf, ApplyData;
    if h < n - 1 {
      EventListAt(c, node, n - 1, h);
    }
  }

  lemma EventListPrefix(c: Crate, node: Node, n: nat)
    requires 0 < n <= |node.chain| <= U64_MAX
    ensures EventList(c, node, n) == EventList(c, node, n - 1) + [EventList(c, node, n)[n - 1]]
  {
    hide EventsOf, ApplyData;
  }

  // ---- Sound transactions make valid chains -------------------------------------------

  // A transaction is found under its own id, and its outputs fit the index.
  ghost predicate OwnIds(node: Node) {
    forall id :: node.HasBody(id) ==> node.txs[id].value.txId == Some(id) && |node.txs[id].value.outputs| <= 0x1_0000_0000
  }

  // Two transactions spend no outpoint in common.
  ghost predicate SpendApart(a: Tx, b: Tx) {
    forall i, j :: 0 <= i < Joined(a) && 0 <= j < Joined(b) ==> a.inputs[i] != b.inputs[j]
  }

  // No transaction is in two blocks, and no two blocks spend the same outpoint.
  ghost predicate BlocksApart(node: Node, a: Block, b: Block) {
    forall x, y :: x in a.transactions && y in b.transactions ==>
      x != y && (node.HasBody(x) && node.HasBody(y) ==> SpendApart(node.txs[x].value, node.txs[y].value))
  }

  ghost predicate SoundTxs(node: Node) {
    && OwnIds(node)
    && (forall h, h' :: 0 <= h < h' < |node.chain| ==> BlocksApart(node, node.chain[h], node.chain[h']))
  }

  lemma LocksOfBlock(c: Crate, node: Node, block: Block, height: u64, r: HtlcRecord)
    requires OwnIds(node) && r in Flat(LocksOf(c, height), Bodies(node, block.transactions))
    ensures r.lockTxId in block.transactions && r.lockBlockHeight == Some(height)
  {
    hide Extracted;
    var tx := SourceOf(LocksOf(c, height), node, block, r);
    ExtractedRows(c, tx, height);
  }

  // The transaction of a block that a row came from.
  lemma SourceOf<T>(f: Tx -> seq<T>, node: Node, block: Block, x: T) returns (tx: Tx)
    requires x in Flat(f, Bodies(node, block.transactions))
    ensures x in f(tx)
    ensures exists id :: id in block.transactions && node.HasBody(id) && tx == node.txs[id].value
  {
    var ids := block.transactions;
    FlatIn(f, Bodies(node, ids), x);
    var i :| 0 <= i < |Bodies(node, ids)| && x in f(Bodies(node, ids)[i]);
    tx := Bodies(node, ids)[i];
    FlatIn(BodyAt(node), ids, tx);
    var j :| 0 <= j < |ids| && tx in BodyAt(node)(ids[j]);
    assert ids[j] in ids && node.HasBody(ids[j]) && tx == node.txs[ids[j]].value;
  }

  lemma DatumsOfBlock(c: Crate, node: Node, block: Block, height: u64, d: OutputDatum)
    requires OwnIds(node) && d in Flat(DatumsOf(c, height), Bodies(node, block.transactions))
    ensures d.txId in block.transactions && node.HasBody(d.txId)
    ensures d in Extracted(c, node.txs[d.txId].value, height).outputDatums
  {
    hide Extracted;
    var tx := SourceOf(DatumsOf(c, height), node, block, d);
    ExtractedRows(c, tx, height);
  }

  lemma SpentByOfBlock(c: Crate, node: Node, block: Block, height: u64, e: SpentByEntry) returns (id: Hash, i: nat)
    requires e in Flat(SpentByOf(c, height), Bodies(node, block.transactions))
    ensures e.blockHeight == height && id in block.transactions && node.HasBody(id)
    ensures var tx := node.txs[id].value; i < Joined(tx) && tx.inputs[i] == TxInput(e.prevTxId, e.outputIndex)
  {
    hide Extracted, Gather;
    var tx := SourceOf(SpentByOf(c, height), node, block, e);
    id :| id in block.transactions && node.HasBody(id) && tx == node.txs[id].value;
    var f := SpentByAt(tx, Extracted(c, tx, height).txId, height);
    GatherIn(Joined(tx), f, e);
    i :| i < Joined(tx) && e in f(i);
  }

  lemma SettlementsOfBlock(c: Crate, htlcs: map<Bytes, HtlcRecord>, height: u64, spends: seq<HtlcSpend>, s: SettlementRecord)
    requires s in Flat(SettledBy(c, htlcs, height), spends)
    ensures s.blockHeight == height
  {
    FlatIn(SettledBy(c, htlcs, height), spends, s);
  }

  lemma SameOutpointSameQuote(c: Crate, node: Node, block: Block, height: u64, x: OutputDatum, y: OutputDatum)
    requires OwnIds(node)
    requires x in Flat(DatumsOf(c, height), Bodies(node, block.transactions))
    requires y in Flat(DatumsOf(c, height), Bodies(node, block.transactions))
    requires DatumKey(x) == DatumKey(y)
    ensures x.quoteId == y.quoteId
  {
    hide Extracted;
    DatumsOfBlock(c, node, block, height, x);
    DatumsOfBlock(c, node, block, height, y);
    PrimaryKeyInjective(x.txId, x.outputIndex, y.txId, y.outputIndex);
    var tx := node.txs[x.txId].value;
    DatumsExactly(c, tx, height, x);
    DatumsExactly(c, tx, height, y);
  }

  lemma EventsWellFormed(c: Crate, node: Node, block: Block, height: u64, htlcs: map<Bytes, HtlcRecord>)
    requires OwnIds(node)
    ensures WellFormed(EventsOf(c, node, block, height, htlcs, 0))
  {
    hide OwnIds, Flat, Bodies;
    var ev := EventsOf(c, node, block, height, htlcs, 0);
    forall r | r in ev.locks ensures r.lockBlockHeight == Some(ev.height) {
      LocksOfBlock(c, node, block, height, r);
    }
    forall s | s in ev.settlements ensures s.blockHeight == ev.height {
      SettlementsOfBlock(c, htlcs, height, ev.spends, s);
    }
    forall e | e in ev.spentBy ensures e.blockHeight == ev.height {
      var _, _ := SpentByOfBlock(c, node, block, height, e);
    }
    forall x, y | x in ev.outputDatums && y in ev.outputDatums && DatumKey(x) == DatumKey(y) ensures x.quoteId == y.quoteId {
      SameOutpointSameQuote(c, node, block, height, x, y);
    }
  }

  lemma EventsApart(c: Crate, node: Node, a: Block, b: Block, h: u64, h': u64,
                    htlcs: map<Bytes, HtlcRecord>, htlcs': map<Bytes, HtlcRecord>)
    requires OwnIds(node) && BlocksApart(node, a, b)
    ensures NothingTwice(EventsOf(c, node, a, h, htlcs, 0), EventsOf(c, node, b, h', htlcs', 0))
  {
    hide OwnIds, Flat, Bodies;
    var ea, eb := EventsOf(c, node, a, h, htlcs, 0), EventsOf(c, node, b, h', htlcs', 0);
    forall x, y | x in ea.locks && y in eb.locks ensures HtlcKey(x) != HtlcKey(y) {
      LocksOfBlock(c, node, a, h, x);
      LocksOfBlock(c, node, b, h', y);
      if HtlcKey(x) == HtlcKey(y) {
        PrimaryKeyInjective(x.lockTxId, x.outputIndex, y.lockTxId, y.outputIndex);
      }
    }
    forall x, y | x in ea.outputDatums && y in eb.outputDatums ensures DatumKey(x) != DatumKey(y) {
      DatumsOfBlock(c, node, a, h, x);
      DatumsOfBlock(c, node, b, h', y);
      if DatumKey(x) == DatumKey(y) {
        PrimaryKeyInjective(x.txId, x.outputIndex, y.txId, y.outputIndex);
      }
    }
    forall x, y | x in ea.spentBy && y in eb.spentBy ensures SpentByKey(x) != SpentByKey(y) {
      var id, i := SpentByOfBlock(c, node, a, h, x);
      var id', i' := SpentByOfBlock(c, node, b, h', y);
      assert SpendApart(node.txs[id].value, node.txs[id'].value);
      if SpentByKey(x) == SpentByKey(y) {
        PrimaryKeyInjective(x.prevTxId, x.outputIndex, y.prevTxId, y.outputIndex);
      }
    }
  }

  // The events of a chain of sound transactions are a valid chain: what the rewind and
  // convergence theorems ask of their blocks holds of everything the follower builds.
  lemma SoundTxsMakeValidChain(c: Crate, node: Node, n: nat)
    requires n <= |node.chain| <= U64_MAX && SoundTxs(node)
    ensures ValidChain(EventList(c, node, n))
  {
    hide EventsOf, OwnIds, BlocksApart, EventList, WellFormed, NothingTwice;
    var bs := EventList(c, node, n);
    forall i | 0 <= i < n ensures WellFormed(bs[i]) && bs[i].height == i {
      EventListAt(c, node, n, i);
      EventsWellFormed(c, node, node.chain[i], i, Straight(c, node, i).htlcs);
      EventsNames(c, node, node.chain[i], i, Straight(c, node, i).htlcs, 0);
    }
    forall i, j | 0 <= i < j < n ensures NothingTwice(bs[i], bs[j]) {
      EventListAt(c, node, n, i);
      EventListAt(c, node, n, j);
      EventsApart(c, node, node.chain[i], node.chain[j], i, j, Straight(c, node, i).htlcs, Straight(c, node, j).htlcs);
    }
  }

  // ---- A fork of one block --------------------------------------------------------------

  // The store is in step with `a` at height `last`; node `b` has the same blocks below it
  // and another one, or none yet, at that height.
  ghost predicate ForksAt(c: Crate, a: Node, b: Node, s: Store, last: u64) {
    && InSync(c, a, EMPTY, s) && Indexed(s) == last + 1 && last > 0
    && SoundNode(b) && SameBelow(a, b, last) && FetchableRange(b, 0, last)
    && (last < |b.chain| ==> b.chain[last].id != a.chain[last].id)
  }

  // Block `last` of the node settles an HTLC that was open before it.
  ghost predicate SettlesOpen(c: Crate, node: Node, last: nat, k: Bytes)
    requires last < |node.chain| <= U64_MAX
  {
    var before := Straight(c, node, last).htlcs;
    && k in before && !before[k].Settled()
    && exists s :: s in EventsAt(c, node, last, before, 0).spends && SpendKey(s) == k
  }

  lemma {:induction false} FirstSpendFinds(ops: seq<HtlcOp>, k: Bytes)
    ensures FirstSpend(ops, k).Some? <==> exists i :: 0 <= i < |ops| && ops[i].Spend? && ops[i].Key() == k
  {
    hide SpendKey, HtlcKey;
    if ops != [] {
      FirstSpendFinds(ops[1..], k);
      assert forall i :: 0 <= i < |ops[1..]| ==> ops[1..][i] == ops[i + 1];
      if i :| 0 <= i < |ops| && ops[i].Spend? && ops[i].Key() == k {
        assert i > 0 ==> ops[1..][i - 1] == ops[i];
      }
    }
  }

  lemma SpendsFound(ev: BlockEvents, k: Bytes)
    ensures FirstSpend(Flat(SpendOps, [ev]), k).Some? <==> exists s :: s in ev.spends && SpendKey(s) == k
  {
    hide SpendKey, Flat, FirstSpend;
    FlatOne(SpendOps, ev);
    FirstSpendFinds(SpendOps(ev), k);
    if s :| s in ev.spends && SpendKey(s) == k {
      var i :| 0 <= i < |ev.spends| && ev.spends[i] == s;
      assert SpendOps(ev)[i].Key() == k;
    }
    if i :| 0 <= i < |SpendOps(ev)| && SpendOps(ev)[i].Spend? && SpendOps(ev)[i].Key() == k {
      assert ev.spends[i] in ev.spends;
    }
  }

  // These are the rows that abandoning the block leaves stuck.
  lemma StuckMeans(c: Crate, node: Node, last: nat, k: Bytes)
    requires last < |node.chain| <= U64_MAX
    ensures Stuck(EventList(c, node, last), [EventList(c, node, last + 1)[last]], k) <==> SettlesOpen(c, node, last, k)
  {
    hide EventsOf, ApplyData, FirstSpend, Flat, WalkData, SpendKey, EventList, Follow;
    StraightIsWalk(c, node, last);
    EventListAt(c, node, last + 1, last);
    SpendsFound(EventList(c, node, last + 1)[last], k);
  }

  lemma CutsAtEnd(pre: seq<BlockEvents>, last: BlockEvents, cut: u64)
    requires |pre| == cut + 1 && last.height == cut + 1
    requires forall i :: 0 <= i < |pre| ==> pre[i].height == i
    ensures CutsAt(pre, [last], cut)
  {}

  // The fork of one block. Rewinding gives a straight walk of the common blocks exactly when
  // the abandoned block settled no HTLC that was open before it.
  lemma ForkOfOneBlock(c: Crate, a: Node, b: Node, s: Store, last: u64)
    requires ForksAt(c, a, b, s, last) && SoundTxs(a)
    ensures last < |a.chain|
    ensures Crossed(c, b, EMPTY, s) <==> forall k :: !SettlesOpen(c, a, last, k)
  {
    hide EventsOf, ApplyData, WipeData, Follow, Fetchable, Stuck, ValidChain, SoundTxs, SettlesOpen;
    var pre := EventList(c, a, last);
    var all := EventList(c, a, last + 1);
    EventListPrefix(c, a, last + 1);
    SoundTxsMakeValidChain(c, a, last + 1);
    HeightsOfList(c, a, last);
    HeightsOfList(c, a, last + 1);
    CutsAtEnd(pre, all[last], last - 1);
    RewindTheorem(pre, [all[last]], last - 1);
    StraightIsWalk(c, a, last);
    StraightIsWalk(c, a, last + 1);
    FetchablePrefix(a, last, last + 1);
    SameFollow(c, a, b, EMPTY, 0, last);
    forall k ensures Stuck(pre, [all[last]], k) <==> SettlesOpen(c, a, last, k) {
      StuckMeans(c, a, last, k);
    }
  }

  lemma FetchablePrefix(node: Node, n: nat, n': nat)
    requires n <= n' <= |node.chain| && FetchableRange(node, 0, n')
    ensures FetchableRange(node, 0, n)
  {}

  lemma HeightsOfList(c: Crate, node: Node, n: nat)
    requires n <= |node.chain| <= U64_MAX
    ensures forall i :: 0 <= i < n ==> EventList(c, node, n)[i].height == i
  {
    hide EventsOf, EventList;
    forall i | 0 <= i < n ensures EventList(c, node, n)[i].height == i {
      EventListAt(c, node, n, i);
      EventsNames(c, node, node.chain[i], i, Straight(c, node, i).htlcs, 0);
    }
  }

  // ---- Deeper forks -----------------------------------------------------------------------

  lemma {:induction false} FollowBlocks(c: Crate, node: Node, t: Tables, from: nat, end: nat, h: nat)
    requires from <= end <= |node.chain| <= U64_MAX && h < |node.chain|
    ensures var blocks := Follow(c, node, t, from, end).blocks;
            Get(blocks, BlockKey(h)) ==
            if from <= h < end then Some(BlockMeta(node.chain[h].id, node.chain[h].txCount, node.chain[h].timestamp))
            else Get(t.blocks, BlockKey(h))
    decreases end
  {
    hide EventsOf, ApplyData, BE;
    if from != end {
      FollowBlocks(c, node, t, from, end - 1, h);
      var before := Follow(c, node, t, from, end - 1);
      BlockRow(c, node, before, end - 1);
    }
  }

  lemma BlockRow(c: Crate, node: Node, t: Tables, h: nat)
    requires h < |node.chain| <= U64_MAX
    ensures ApplyData(t, EventsAt(c, node, h, t.htlcs, 0)).blocks ==
            t.blocks[BlockKey(h) := BlockMeta(node.chain[h].id, node.chain[h].txCount, node.chain[h].timestamp)]
  {
    var ev := EventsAt(c, node, h, t.htlcs, 0);
    PutOne(t.blocks, BlockPuts(ev)[0]);
  }

  // The block row below the checkpoint names a block the node does not have.
  ghost predicate Stale(node: Node, below: u64, gone: Hash, s: Store) {
    && below < |node.chain| && gone != node.chain[below].id
    && Current(s.checkpoint)
    && BlockKey(below) in s.data.blocks && s.data.blocks[BlockKey(below)].blockId == gone
    && var m := s.checkpoint.meta;
       || (m.lastIndexedHeight == below + 1 && (below + 1 < |node.chain| ==> m.lastIndexedBlockId != node.chain[below + 1].id))
       || (below <= m.lastIndexedHeight < |node.chain| && m.lastIndexedBlockId == node.chain[m.lastIndexedHeight].id)
  }

  lemma WipeKeepsBlock(t: Tables, cut: u64, h: u64)
    requires h <= cut
    ensures Get(WipeData(t, cut).blocks, BlockKey(h)) == Get(t.blocks, BlockKey(h))
  {
    hide ReverseKeys;
    assert KeyHeight(BlockKey(h), 0) == h by {
      BERoundTrip(h, 8);
      Widths();
      assert BlockKey(h)[0..8] == BlockKey(h);
    }
  }

  lemma CaughtStaysStale(c: Crate, view: Node, node: Node, below: u64, gone: Hash, m: FollowerMeta,
                         s: Store, s': Store, done: bool)
    requires SoundNode(view) && SoundNode(node) && Views(view, node) && Stale(node, below, gone, s)
    requires m.lastIndexedHeight < |view.chain| && m.lastIndexedHeight >= below && m.schemaVersion >= SCHEMA_VERSION
    requires m.lastIndexedBlockId == node.chain[m.lastIndexedHeight].id
    requires Caught(c, view, m, s, s', done)
    ensures Stale(node, below, gone, s')
  {
    hide Follow, Fetchable, BlockKey;
    var from := StartHeight(m);
    BlockIdsTellStart(node, m.lastIndexedHeight, m);
    if from < |view.chain| {
      var end :| && from <= end <= |view.chain| && (done ==> end == |view.chain|)
                 && FetchableRange(view, from, end) && s' == Walked(c, view, s, from, end, m.startedAt);
      FollowBlocks(c, view, s.data, from, end, below);
    }
  }

  lemma TickStaysStale(c: Crate, view: Node, node: Node, below: u64, gone: Hash, now: u64, s: Store, s': Store, done: bool)
    requires SoundNode(view) && SoundNode(node) && Views(view, node) && Stale(node, below, gone, s)
    requires Ticked(c, view, now, s, s', done)
    ensures Stale(node, below, gone, s')
  {
    hide Caught, Fetchable, BlockKey;
    var m := Started(s.checkpoint.meta, now);
    if m.lastIndexedHeight < |view.chain| {
      assert view.chain[m.lastIndexedHeight] == node.chain[m.lastIndexedHeight];
      if Diverged(view, m) {
        WipeKeepsBlock(s.data, below, below);
        hide WipeData;
        var back := SteppedBack(view, m);
        assert view.chain[below] == node.chain[below];
        var wiped := Store(WipeData(s.data, below), Stored(back));
        if Caught(c, view, back, wiped, s', done) {
          CaughtStaysStale(c, view, node, below, gone, back, wiped, s', done);
        }
      } else {
        hide WipeData;
        CaughtStaysStale(c, view, node, below, gone, m, s, s', done);
      }
    }
  }

  lemma StaleIsNotInSync(c: Crate, node: Node, below: u64, gone: Hash, s: Store)
    requires Stale(node, below, gone, s)
    ensures !InSync(c, node, EMPTY, s)
  {
    hide BlockKey, Fetchable, Follow;
    if InSync(c, node, EMPTY, s) {
      FollowBlocks(c, node, EMPTY, 0, Indexed(s), below);
    }
  }

  // The store is in step with `a` and `b` differs from it in the last two blocks held.
  ghost predicate ForksDeeper(c: Crate, a: Node, b: Node, s: Store, last: u64) {
    && InSync(c, a, EMPTY, s) && Indexed(s) == last + 1 && last > 0
    && SoundNode(b) && last - 1 < |b.chain| && b.chain[last - 1].id != a.chain[last - 1].id
    && (last < |b.chain| ==> b.chain[last].id != a.chain[last].id)
  }

  lemma {:induction false} StaysStale(c: Crate, node: Node, below: u64, gone: Hash, es: seq<Event>, ss: seq<Store>)
    requires SoundNode(node) && Session(c, node, es, ss) && Stale(node, below, gone, ss[0])
    ensures forall i :: 0 <= i < |ss| ==> Stale(node, below, gone, ss[i])
  {
    hide Stale, Moves, Views;
    if es != [] {
      var n := |es| - 1;
      StaysStale(c, node, below, gone, es[..n], ss[..n + 1]);
      assert ss[..n + 1][n] == ss[n];
      StepStaysStale(c, node, below, gone, es[n], ss[n], ss[n + 1]);
      forall i | 0 <= i < n ensures Stale(node, below, gone, ss[i]) {
        assert ss[..n + 1][i] == ss[i];
      }
    }
  }

  // A deeper fork is never repaired: the follower steps back one block and trusts it, so
  // whatever ticks and restarts follow, the block row below the fork keeps its abandoned id
  // and no store reached is a straight walk of the new branch.
  lemma DeepForkIsNeverRepaired(c: Crate, a: Node, b: Node, last: u64, es: seq<Event>, ss: seq<Store>)
    requires Session(c, b, es, ss) && ForksDeeper(c, a, b, ss[0], last)
    ensures forall i :: 0 <= i < |ss| ==> !InSync(c, b, EMPTY, ss[i])
    ensures forall i :: 0 <= i < |ss| ==>
              Get(ss[i].data.blocks, BlockKey(last - 1)).Some?
              && ss[i].data.blocks[BlockKey(last - 1)].blockId == a.chain[last - 1].id
  {
    var gone := a.chain[last - 1].id;
    StaleAtFirst(c, a, b, ss[0], last);
    hide InSync, Moves, Views, BlockKey;
    StaysStale(c, b, last - 1, gone, es, ss);
    forall i | 0 <= i < |ss| ensures !InSync(c, b, EMPTY, ss[i]) {
      StaleIsNotInSync(c, b, last - 1, gone, ss[i]);
    }
  }

  lemma StaleAtFirst(c: Crate, a: Node, b: Node, s: Store, last: u64)
    requires ForksDeeper(c, a, b, s, last)
    ensures Stale(b, last - 1, a.chain[last - 1].id, s)
  {
    hide BlockKey, Follow, Fetchable;
    FollowBlocks(c, a, EMPTY, 0, last + 1, last - 1);
  }

  lemma StepStaysStale(c: Crate, node: Node, below: u64, gone: Hash, e: Event, s: Store, s': Store)
    requires SoundNode(node) && Stale(node, below, gone, s) && Moves(c, e, s, s') && (e.Ticks? ==> Views(e.view, node))
    ensures Stale(node, below, gone, s')
  {
    hide Ticked, BlockKey;
    match e
    case Ticks(view, now) =>
      var done :| Ticked(c, view, now, s, s', done);
      TickStaysStale(c, view, node, below, gone, now, s, s', done);
    case Restarts =>
      OpeningMigrates(s.checkpoint);
  }
}
