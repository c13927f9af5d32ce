/**
 The block follower. A tick asks the node for its tip, steps back from an abandoned
 block and applies what is missing, one commit at a time. Any call to the node and
 any commit may fail, which ends the tick where it stands.
 */
module Following {
  import opened ByteStrings
  import opened Records
  import opened Keys
  import opened Folds
  import opened Seqs
  import opened Tables
  import opened Database
  import opened Runs
  import opened Extract
  import opened Blocks

  // ---- What a tick may do ------------------------------------------------------

  // A chain whose heights fit the key encoding. No block hash is all zeros.
  ghost predicate SoundNode(node: Node) {
    0 < |node.chain| <= U64_MAX && node.chain[0].id != ZERO_HASH
  }

  function EventsAt(c: Crate, node: Node, h: nat, htlcs: map<Bytes, HtlcRecord>, startedAt: u64): BlockEvents
    requires h < |node.chain| <= U64_MAX
  {
    EventsOf(c, node, node.chain[h], h, htlcs, startedAt)
  }

  // Blocks from..to of the node's chain over `t`, each with settlements peeked from the
  // tables it found.
  function Follow(c: Crate, node: Node, t: Tables, from: nat, end: nat): Tables
    requires from <= end <= |node.chain| <= U64_MAX
  {
    if from == end then t
    else
      var before := Follow(c, node, t, from, end - 1);
      ApplyData(before, EventsAt(c, node, end - 1, before.htlcs, 0))
  }

  ghost predicate FetchableRange(node: Node, from: nat, end: nat)
    requires end <= |node.chain|
  {
    forall h :: from <= h < end ==> Fetchable(node, node.chain[h])
  }

  // The store once blocks from..to are committed.
  function Walked(c: Crate, node: Node, s: Store, from: nat, end: nat, startedAt: u64): Store
    requires from <= end <= |node.chain| <= U64_MAX
  {
    Store(Follow(c, node, s.data, from, end),
          if from == end then s.checkpoint
          else Stored(FollowerMeta(end - 1, node.chain[end - 1].id, false, startedAt, SCHEMA_VERSION)))
  }

  // The start time a block carries reaches the checkpoint and no table.
  lemma StartTimeIsNotData(t: Tables, ev: BlockEvents, startedAt: u64)
    ensures ApplyData(t, ev.(startedAt := startedAt)) == ApplyData(t, ev)
  {
    var ev' := ev.(startedAt := startedAt);
    assert HtlcOps(ev') == HtlcOps(ev);
    assert SettlementPuts(ev') == SettlementPuts(ev);
    assert ActivityPuts(ev') == ActivityPuts(ev);
    assert SpentByPuts(ev') == SpentByPuts(ev);
    assert DatumPuts(ev') == DatumPuts(ev);
    assert BlockPuts(ev') == BlockPuts(ev);
  }

  lemma EventsStart(c: Crate, node: Node, block: Block, height: u64, htlcs: map<Bytes, HtlcRecord>, startedAt: u64)
    ensures EventsOf(c, node, block, height, htlcs, startedAt) == EventsOf(c, node, block, height, htlcs, 0).(startedAt := startedAt)
  {}

  lemma EventsNames(c: Crate, node: Node, block: Block, height: u64, htlcs: map<Bytes, HtlcRecord>, startedAt: u64)
    ensures var ev := EventsOf(c, node, block, height, htlcs, startedAt);
            ev.height == height && ev.blockId == block.id && !ev.fullScanComplete && ev.startedAt == startedAt
  {}

  // The rest of a tick, once the checkpoint `m` it holds agrees with the node.
  ghost predicate Caught(c: Crate, node: Node, m: FollowerMeta, s: Store, s': Store, done: bool)
    requires |node.chain| <= U64_MAX
  {
    var from := StartHeight(m);
    if from >= |node.chain| then
      || (s' == s && (done ==> m.fullScanComplete))
      || (s' == Store(s.data, Stored(m.(fullScanComplete := true))) && !m.fullScanComplete)
    else
      exists end ::
        && from <= end <= |node.chain| && (done ==> end == |node.chain|)
        && FetchableRange(node, from, end) && s' == Walked(c, node, s, from, end, m.startedAt)
  }

  function Started(m: FollowerMeta, now: u64): FollowerMeta {
    if m.startedAt == 0 then m.(startedAt := now) else m
  }

  predicate Diverged(node: Node, m: FollowerMeta) {
    0 < m.lastIndexedHeight < |node.chain| && node.chain[m.lastIndexedHeight].id != m.lastIndexedBlockId
  }

  // One block back, trusting whatever the node has there.
  function SteppedBack(node: Node, m: FollowerMeta): FollowerMeta
    requires Diverged(node, m)
  {
    var h: u64 := m.lastIndexedHeight - 1;
    m.(lastIndexedHeight := h, lastIndexedBlockId := node.chain[h].id, fullScanComplete := false)
  }

  // Every store a tick may leave, and the ones it may leave when it reports success.
  ghost predicate Ticked(c: Crate, node: Node, now: u64, s: Store, s': Store, done: bool)
    requires SoundNode(node)
  {
    match Loaded(s.checkpoint)
    case Err => s' == s && !done
    case Ok(loaded) =>
      var m := Started(loaded, now);
      if m.lastIndexedHeight >= |node.chain| then s' == s && !done
      else if !Diverged(node, m) then Caught(c, node, m, s, s', done)
      else
        var wiped := WipeData(s.data, m.lastIndexedHeight - 1);
        var back := SteppedBack(node, m);
        || (!done && (s' == s || s' == Store(wiped, s.checkpoint)))
        || Caught(c, node, back, Store(wiped, Stored(back)), s', done)
  }

  lemma WalkedNext(c: Crate, node: Node, s: Store, from: nat, h: nat, startedAt: u64)
    requires from <= h < |node.chain| <= U64_MAX
    ensures var before := Walked(c, node, s, from, h, startedAt);
            Walked(c, node, s, from, h + 1, startedAt) ==
            Apply(before, EventsAt(c, node, h, before.data.htlcs, startedAt))
  {
    hide EventsOf, ApplyData;
    var htlcs := Follow(c, node, s.data, from, h).htlcs;
    StartTimeIsNotData(Follow(c, node, s.data, from, h), EventsAt(c, node, h, htlcs, 0), startedAt);
    assert EventsAt(c, node, h, htlcs, startedAt) == EventsAt(c, node, h, htlcs, 0).(startedAt := startedAt) by {
      EventsStart(c, node, node.chain[h], h, htlcs, startedAt);
    }
    EventsNames(c, node, node.chain[h], h, htlcs, startedAt);
  }

  lemma StopsAtOnce(c: Crate, node: Node, m: FollowerMeta, s: Store)
    requires |node.chain| <= U64_MAX
    ensures Caught(c, node, m, s, s, false)
  {
    var from := StartHeight(m);
    if from < |node.chain| {
      assert s == Walked(c, node, s, from, from, m.startedAt);
    }
  }

  lemma StoppedTick(c: Crate, node: Node, now: u64, s: Store)
    requires SoundNode(node)
    ensures Ticked(c, node, now, s, s, false)
  {
    hide Caught, WipeData;
    if Loaded(s.checkpoint).Ok? {
      StopsAtOnce(c, node, Started(Loaded(s.checkpoint).value, now), s);
    }
  }

  // Once a tick has changed the checkpoint, it says that the scan is complete exactly when no
  // block was left to walk; and a tick that succeeds with none left says so.
  lemma ScanFlag(c: Crate, node: Node, now: u64, s: Store, s': Store, done: bool)
    requires SoundNode(node) && Ticked(c, node, now, s, s', done) && s.checkpoint.Stored?
    ensures var m := s.checkpoint.meta;
            var nothingLeft := !Diverged(node, m) && StartHeight(m) >= |node.chain|;
            && s'.checkpoint.Stored?
            && (s'.checkpoint != s.checkpoint ==> (s'.checkpoint.meta.fullScanComplete <==> nothingLeft))
            && (done && nothingLeft ==> s'.checkpoint.meta.fullScanComplete && s'.data == s.data)
  {
    hide Follow, FetchableRange, WipeData;
  }

  // The node holds the block of the checkpoint and answers every lookup of its chain.
  ghost predicate Reachable(node: Node, loaded: Result<FollowerMeta>) {
    loaded.Ok? && loaded.value.lastIndexedHeight < |node.chain| && FetchableRange(node, 0, |node.chain|)
  }

  // ---- The follower ---------------------------------------------------------------

  class Follower {
    const db: Db
    const crate: Crate

    constructor (db: Db, crate: Crate)
      ensures this.db == db && this.crate == crate
    {
      this.db := db;
      this.crate := crate;
    }

    // A call to the node, or a commit, goes through or does not.
    method Attempt() returns (ok: bool)
    {
      ok := *;
    }

    // ---- Lookups ------------------------------------------------------------------

    // A transaction of the block itself: an empty body does not decode.
    method FetchBody(node: Node, id: Hash) returns (r: Result<Tx>, faulted: bool)
      ensures r.Ok? ==> node.HasBody(id) && r.value == node.txs[id].value
      ensures !faulted && node.HasBody(id) ==> r.Ok?
    {
      var ok := Attempt();
      if !ok {
        return Err, true;
      }
      if id !in node.txs || node.txs[id].None? {
        return Err, false;
      }
      return Ok(node.txs[id].value), false;
    }

    // A previous transaction: an empty body is skipped.
    method FetchTx(node: Node, id: Hash) returns (r: Result<Option<Tx>>, faulted: bool)
      ensures r.Ok? ==> node.Knows(id) && r.value == node.txs[id]
      ensures !faulted && node.Knows(id) ==> r.Ok?
    {
      var ok := Attempt();
      if !ok {
        return Err, true;
      }
      if id !in node.txs {
        return Err, false;
      }
      return Ok(node.txs[id]), false;
    }

    method PeekHtlc(lockTxId: Hash, outputIndex: u32) returns (r: Option<HtlcRecord>)
      ensures r == if PrimaryKey(lockTxId, outputIndex) in db.htlcFull then Some(db.htlcFull[PrimaryKey(lockTxId, outputIndex)]) else None
    {
      var k := PrimaryKey(lockTxId, outputIndex);
      r := if k in db.htlcFull then Some(db.htlcFull[k]) else None;
    }

    method FindCommonAncestor(node: Node, fromHeight: u64) returns (r: Result<(u64, Hash)>, faulted: bool)
      requires SoundNode(node) && fromHeight < |node.chain|
      ensures r.Ok? ==> var h: u64 := if fromHeight == 0 then 0 else fromHeight - 1; r.value == (h, node.chain[h].id)
      ensures !faulted ==> r.Ok?
    {
      var ok := Attempt();
      if !ok {
        return Err, true;
      }
      if fromHeight == 0 {
        return Ok((0, node.chain[0].id)), false;
      }
      var h: u64 := fromHeight - 1;
      return Ok((h, node.chain[h].id)), false;
    }

    // ---- One transaction ------------------------------------------------------------

    static method DistinctAddresses(rows: seq<AddressActivity>) returns (addresses: seq<Hash>)
      ensures addresses == Distinct(rows)
    {
      addresses := [];
      for i := 0 to |rows|
        invariant addresses == Distinct(rows[..i])
      {
        assert rows[..i + 1][..i] == rows[..i];
        if rows[i].address !in addresses {
          addresses := addresses + [rows[i].address];
        }
      }
      assert rows[..|rows|] == rows;
    }

    static method AttachCounterparties(rows: seq<AddressActivity>, recipients: seq<Hash>, senders: seq<Hash>)
      returns (r: seq<AddressActivity>)
      ensures r == Attach(rows, recipients, senders)
    {
      r := rows;
      for i := 0 to |rows|
        invariant |r| == |rows|
        invariant forall j :: 0 <= j < i ==> r[j] == Faced(rows[j], recipients, senders)
        invariant forall j :: i <= j < |rows| ==> r[j] == rows[j]
      {
        var others := if r[i].isInput then recipients else senders;
        var kept := [];
        for j := 0 to |others|
          invariant kept == Filter(others[..j], Other(rows[i].address))
        {
          FilterSnoc(others, Other(rows[i].address), j);
          if others[j] != r[i].address {
            kept := kept + [others[j]];
          }
        }
        assert others[..|others|] == others;
        r := r[i := r[i].(counterparties := kept)];
      }
    }

    ghost static predicate Cached(node: Node, cache: map<Hash, Tx>) {
      forall id :: id in cache ==> node.HasBody(id) && cache[id] == node.txs[id].value
    }

    // The spent-by entries and the payments of the inputs; each previous transaction is
    // fetched once per block.
    method ScanInputs(node: Node, tx: Tx, txId: Hash, height: u64, cache: map<Hash, Tx>)
      returns (ok: bool, spentBy: seq<SpentByEntry>, payments: seq<AddressActivity>, cache': map<Hash, Tx>, faulted: bool)
      requires Cached(node, cache)
      ensures Cached(node, cache')
      ensures ok ==> InputsKnown(node, tx)
      ensures ok ==> spentBy == Gather(Joined(tx), SpentByAt(tx, txId, height))
      ensures ok ==> payments == Gather(Joined(tx), PaymentsAt(node, tx, txId))
      ensures !faulted && InputsKnown(node, tx) ==> ok
    {
      hide Gather;
      GatherNone(SpentByAt(tx, txId, height));
      GatherNone(PaymentsAt(node, tx, txId));
      spentBy, payments, cache', faulted := [], [], cache, false;
      if tx.isCoinbase {
        return true, [], [], cache, false;
      }
      for i := 0 to |tx.inputs|
        invariant Cached(node, cache') && !faulted
        invariant forall j :: 0 <= j < i ==> node.Knows(tx.inputs[j].prevTxId)
        invariant spentBy == Gather(i, SpentByAt(tx, txId, height))
        invariant payments == Gather(i, PaymentsAt(node, tx, txId))
      {
        GatherNext(i, SpentByAt(tx, txId, height));
        GatherNext(i, PaymentsAt(node, tx, txId));
        var input := tx.inputs[i];
        spentBy := spentBy + [SpentByEntry(input.prevTxId, input.outputIndex, txId, AsU32(i), height)];
        if input.prevTxId !in cache' {
          var fetched, failed := FetchTx(node, input.prevTxId);
          if fetched.Err? {
            return false, [], [], cache', failed;
          }
          if fetched.value.Some? {
            cache' := cache'[input.prevTxId := fetched.value.value];
          }
        }
        if input.prevTxId in cache' {
          var outputs := cache'[input.prevTxId].outputs;
          if input.outputIndex < |outputs| {
            var out := outputs[input.outputIndex];
            if |out.script| == 32 {
              payments := payments + [AddressActivity(out.script, txId, out.value, true, false, [])];
            }
          }
        }
      }
      ok := true;
    }

    // What one transaction contributes: its extraction, its address rows with both sides
    // known, and its spent-by entries.
    method CollectTx(node: Node, tx: Tx, height: u64, cache: map<Hash, Tx>)
      returns (ok: bool, extracted: ExtractedTx, rows: seq<AddressActivity>, spentBy: seq<SpentByEntry>,
               cache': map<Hash, Tx>, faulted: bool)
      requires Cached(node, cache)
      ensures Cached(node, cache')
      ensures ok ==> InputsKnown(node, tx) && extracted == Extracted(crate, tx, height)
      ensures ok ==> rows == TxActivity(crate, node, tx, height)
      ensures ok ==> spentBy == Gather(Joined(tx), SpentByAt(tx, extracted.txId, height))
      ensures !faulted && InputsKnown(node, tx) ==> ok
    {
      hide Extracted, Gather, Distinct, Attach;
      extracted := ExtractFromTx(crate, tx, height);
      var recipients := DistinctAddresses(extracted.activity);
      var payments;
      ok, spentBy, payments, cache', faulted := ScanInputs(node, tx, extracted.txId, height, cache);
      var senders := DistinctAddresses(payments);
      rows := AttachCounterparties(extracted.activity + payments, recipients, senders);
    }

    // ---- One block --------------------------------------------------------------------

    method CollectSettlements(spends: seq<HtlcSpend>, height: u64) returns (settlements: seq<SettlementRecord>)
      ensures settlements == Flat(SettledBy(crate, db.htlcFull, height), spends)
    {
      hide SettlementsForSettledHtlc;
      ghost var rows := SettledBy(crate, db.htlcFull, height);
      settlements := [];
      for i := 0 to |spends|
        invariant settlements == Flat(rows, spends[..i])
      {
        assert spends[..i + 1] == spends[..i] + [spends[i]];
        FlatSnoc(rows, spends[..i], spends[i]);
        var peeked := PeekHtlc(spends[i].lockTxId, spends[i].outputIndex);
        if peeked.Some? {
          var rec := peeked.value.(state := if spends[i].arm.Claim? then Claimed else Reclaimed);
          settlements := settlements + SettlementsForSettledHtlc(crate, rec, height);
        }
      }
      assert spends[..|spends|] == spends;
    }

    // Fetches a block's transactions and joins their inputs.
    method CollectEvents(node: Node, block: Block, height: u64, startedAt: u64)
      returns (r: Option<BlockEvents>, faulted: bool)
      ensures r.Some? ==> Fetchable(node, block) && r.value == EventsOf(crate, node, block, height, db.htlcFull, startedAt)
      ensures !faulted && Fetchable(node, block) ==> r.Some?
    {
      hide Extracted, Gather, Distinct, Attach, SpendKey, Flat, TxActivity;
      FlatNone(BodyAt(node));
      FlatNone(LocksOf(crate, height));
      FlatNone(SpendsOf(crate, height));
      FlatNone(DatumsOf(crate, height));
      FlatNone(ActivityOf(crate, node, height));
      FlatNone(SpentByOf(crate, height));
      var locks, spends, activity, spentBy, datums := [], [], [], [], [];
      var cache: map<Hash, Tx> := map[];
      var ids := block.transactions;
      ghost var seen: seq<Tx> := [];
      for i := 0 to |ids|
        invariant Cached(node, cache)
        invariant forall j :: 0 <= j < i ==> node.HasBody(ids[j]) && InputsKnown(node, node.txs[ids[j]].value)
        invariant seen == Bodies(node, ids[..i])
        invariant locks == Flat(LocksOf(crate, height), seen)
        invariant spends == Flat(SpendsOf(crate, height), seen)
        invariant datums == Flat(DatumsOf(crate, height), seen)
        invariant activity == Flat(ActivityOf(crate, node, height), seen)
        invariant spentBy == Flat(SpentByOf(crate, height), seen)
      {
        var fetched, failed := FetchBody(node, ids[i]);
        if fetched.Err? {
          return None, failed;
        }
        var tx := fetched.value;
        var extracted, rows, spent;
        var joined, failed';
        joined, extracted, rows, spent, cache, failed' := CollectTx(node, tx, height, cache);
        if !joined {
          return None, failed';
        }
        assert ids[..i + 1] == ids[..i] + [ids[i]];
        FlatSnoc(BodyAt(node), ids[..i], ids[i]);
        FlatSnoc(LocksOf(crate, height), seen, tx);
        FlatSnoc(SpendsOf(crate, height), seen, tx);
        FlatSnoc(DatumsOf(crate, height), seen, tx);
        FlatSnoc(ActivityOf(crate, node, height), seen, tx);
        FlatSnoc(SpentByOf(crate, height), seen, tx);
        seen := seen + [tx];
        locks := locks + extracted.locks;
        spends := spends + extracted.spends;
        datums := datums + extracted.outputDatums;
        activity := activity + rows;
        spentBy := spentBy + spent;
      }
      assert ids[..|ids|] == ids;
      var settlements := CollectSettlements(spends, height);
      r := Some(BlockEvents(height, block.id, block.txCount, block.timestamp, false, startedAt,
                            locks, spends, settlements, activity, spentBy, datums));
      faulted := false;
    }

    // Commits all events of a block at once.
    method ProcessBlock(node: Node, block: Block, height: u64, startedAt: u64) returns (ok: bool, faulted: bool)
      requires db.Valid()
      modifies db
      ensures db.Valid()
      ensures ok ==> Fetchable(node, block)
      ensures ok ==> db.Contents() == Apply(old(db.Contents()), EventsOf(crate, node, block, height, old(db.htlcFull), startedAt))
      ensures !ok ==> db.Contents() == old(db.Contents())
      ensures !faulted && Fetchable(node, block) ==> ok
    {
      hide Apply, EventsOf, Fetchable;
      var collected, failed := CollectEvents(node, block, height, startedAt);
      if collected.None? {
        return false, failed;
      }
      var committed := Attempt();
      if !committed {
        return false, true;
      }
      db.ApplyBlockEvents(collected.value);
      return true, false;
    }

    // ---- One tick ------------------------------------------------------------------------

    // Blocks from..tip, each in its own commit.
    method CatchUp(node: Node, from: nat, startedAt: u64) returns (ok: bool, faulted: bool)
      requires db.Valid() && SoundNode(node) && from < |node.chain|
      modifies db
      ensures db.Valid()
      ensures exists end ::
                && from <= end <= |node.chain| && (ok ==> end == |node.chain|) && FetchableRange(node, from, end)
                && db.Contents() == Walked(crate, node, old(db.Contents()), from, end, startedAt)
      ensures !faulted && FetchableRange(node, from, |node.chain|) ==> ok
    {
      hide EventsOf, ApplyData;
      ghost var s := db.Contents();
      for h := from to |node.chain|
        invariant db.Valid()
        invariant FetchableRange(node, from, h)
        invariant db.Contents() == Walked(crate, node, s, from, h, startedAt)
      {
        var answered := Attempt();
        if !answered {
          return false, true;
        }
        WalkedNext(crate, node, s, from, h, startedAt);
        var processed, failed := ProcessBlock(node, node.chain[h], h, startedAt);
        if !processed {
          return false, failed;
        }
      }
      return true, false;
    }

    // The part of a tick after the reorg check.
    method Resume(node: Node, m: FollowerMeta) returns (ok: bool, faulted: bool)
      requires db.Valid() && SoundNode(node)
      modifies db
      ensures db.Valid()
      ensures Caught(crate, node, m, old(db.Contents()), db.Contents(), ok)
      ensures !faulted && FetchableRange(node, 0, |node.chain|) ==> ok
    {
      hide Walked, Fetchable;
      StopsAtOnce(crate, node, m, db.Contents());
      var from := StartHeight(m);
      if from >= |node.chain| {
        if !m.fullScanComplete {
          var committed := Attempt();
          if !committed {
            return false, true;
          }
          db.SaveMeta(m.(fullScanComplete := true));
        }
        return true, false;
      }
      ok, faulted := CatchUp(node, from, m.startedAt);
    }

    method Tick(node: Node, now: u64) returns (ok: bool, faulted: bool)
      requires db.Valid() && SoundNode(node)
      modifies db
      ensures db.Valid()
      ensures Ticked(crate, node, now, old(db.Contents()), db.Contents(), ok)
      ensures !faulted && Reachable(node, Loaded(old(db.chainTip))) ==> ok
    {
      hide Caught, FetchableRange, WipeData, ApplyData, EventsOf;
      StoppedTick(crate, node, now, db.Contents());
      var answered := Attempt();
      if !answered {
        return false, true;
      }
      var loaded := db.LoadMeta();
      if loaded.Err? {
        return false, false;
      }
      var m := loaded.value;
      if m.startedAt == 0 {
        m := m.(startedAt := now);
      }
      if m.lastIndexedHeight > 0 {
        answered := Attempt();
        if !answered {
          return false, true;
        }
        if m.lastIndexedHeight >= |node.chain| {
          return false, false;
        }
        var onChain := node.chain[m.lastIndexedHeight].id;
        if onChain != m.lastIndexedBlockId {
          var ancestor, failed := FindCommonAncestor(node, m.lastIndexedHeight);
          if ancestor.Err? {
            return false, true;
          }
          var committed := Attempt();
          if !committed {
            return false, true;
          }
          db.WipeAbove(ancestor.value.0);
          m := m.(lastIndexedHeight := ancestor.value.0, lastIndexedBlockId := ancestor.value.1, fullScanComplete := false);
          committed := Attempt();
          if !committed {
            return false, true;
          }
          db.SaveMeta(m);
        }
      }
      ok, faulted := Resume(node, m);
    }
  }
}
