/**
 The walk from genesis that a migration starts, over the rows an earlier walk left.
 */
module Reindex {
  import opened ByteStrings
  import opened Records
  import opened Keys
  import opened Folds
  import opened Tables
  import opened Replay
  import opened Rewind
  import opened Runs
  import opened Extract
  import opened Blocks
  import opened Following
  import opened Sessions
  import opened Forks
  import opened Guarantees
  import opened Reorg

  // ---- The events of a second walk -----------------------------------------------------------

  // Peeking in a table `m` that keeps every row of `m'` finds the same settlements exactly
  // when no spend finds a row that only `m` has.
  lemma {:induction false} SamePeeks(c: Crate, m: map<Bytes, HtlcRecord>, m': map<Bytes, HtlcRecord>, height: u64, spends: seq<HtlcSpend>)
    requires forall k :: k in m' ==> k in m && m[k] == m'[k]
    ensures |Flat(SettledBy(c, m, height), spends)| >= |Flat(SettledBy(c, m', height), spends)|
    ensures Flat(SettledBy(c, m, height), spends) == Flat(SettledBy(c, m', height), spends) <==>
            forall s :: s in spends && SpendKey(s) in m ==> SpendKey(s) in m'
  {
    hide SpendKey;
    if spends != [] {
      SamePeeks(c, m, m', height, spends[1..]);
      var here, here' := SettledBy(c, m, height)(spends[0]), SettledBy(c, m', height)(spends[0]);
      assert SpendKey(spends[0]) in m ==> |here| == 2;
      assert SpendKey(spends[0]) in m' ==> here == here';
      assert SpendKey(spends[0]) !in m' ==> here' == [];
      SameTail(here, Flat(SettledBy(c, m, height), spends[1..]), Flat(SettledBy(c, m', height), spends[1..]));
      hide SettledBy;
      assert (forall s :: s in spends && SpendKey(s) in m ==> SpendKey(s) in m') <==>
             (SpendKey(spends[0]) in m ==> SpendKey(spends[0]) in m')
             && (forall s :: s in spends[1..] && SpendKey(s) in m ==> SpendKey(s) in m');
    }
  }

  lemma SameTail<T>(head: seq<T>, a: seq<T>, b: seq<T>)
    ensures head + a == head + b <==> a == b
  {
    assert (head + a)[|head|..] == a && (head + b)[|head|..] == b;
  }

  // No block spends an outpoint that the old rows hold but the blocks before it do not.
  ghost predicate LockedBefore(c: Crate, node: Node, base: Tables, n: nat)
    requires n <= |node.chain| <= U64_MAX
  {
    forall h, s :: 0 <= h < n && s in EventList(c, node, n)[h].spends && SpendKey(s) in base.htlcs ==>
      SpendKey(s) in Straight(c, node, h).htlcs
  }

  // A walk over `base` hands the store the events of the straight walk, block by block.
  ghost predicate SameEventsOver(c: Crate, node: Node, base: Tables, n: nat)
    requires n <= |node.chain| <= U64_MAX
  {
    forall h :: 0 <= h < n ==>
      EventsAt(c, node, h, Follow(c, node, base, 0, h).htlcs, 0) == EventsAt(c, node, h, Straight(c, node, h).htlcs, 0)
  }

  lemma {:induction false} SameEventsWalk(c: Crate, node: Node, base: Tables, n: nat)
    requires n <= |node.chain| <= U64_MAX && SameEventsOver(c, node, base, n)
    ensures Follow(c, node, base, 0, n) == WalkData(base, EventList(c, node, n))
  {
    hide EventsOf, ApplyData;
    if n > 0 {
      SameEventsWalk(c, node, base, n - 1);
      var last := EventsAt(c, node, n - 1, Straight(c, node, n - 1).htlcs, 0);
      WalkConcat(base, EventList(c, node, n - 1), [last]);
      WalkOne(WalkData(base, EventList(c, node, n - 1)), last);
    }
  }

  // Rows of blocks walked over `base`: those of the straight walk win, and the others are
  // the ones `base` had.
  lemma OverlaidRows(base: Tables, bs: seq<BlockEvents>)
    ensures var over, straight := WalkData(base, bs).htlcs, WalkData(EMPTY, bs).htlcs;
            && (forall k :: k in straight ==> k in over && over[k] == straight[k])
            && (forall k :: k in over <==> k in straight || k in base.htlcs)
  {
    var over, straight := WalkData(base, bs).htlcs, WalkData(EMPTY, bs).htlcs;
    forall k
      ensures k in straight ==> k in over && over[k] == straight[k]
      ensures k in over <==> k in straight || k in base.htlcs
    {
      HtlcRefinement(base, bs, k);
      HtlcRefinement(EMPTY, bs, k);
      assert Get(over, k) == Outcome(Get(base.htlcs, k), bs, k);
      assert Get(straight, k) == Outcome(None, bs, k);
    }
  }

  lemma SameEventsHere(c: Crate, node: Node, base: Tables, h: nat)
    requires h < |node.chain| <= U64_MAX && SameEventsOver(c, node, base, h)
    ensures EventsAt(c, node, h, Follow(c, node, base, 0, h).htlcs, 0) == EventsAt(c, node, h, Straight(c, node, h).htlcs, 0) <==>
            forall s :: s in EventsAt(c, node, h, Straight(c, node, h).htlcs, 0).spends && SpendKey(s) in base.htlcs ==>
              SpendKey(s) in Straight(c, node, h).htlcs
  {
    hide WalkData, Follow, SettledBy, LocksOf, ActivityOf, SpentByOf, DatumsOf, SpendKey, EventList;
    SameEventsWalk(c, node, base, h);
    StraightIsWalk(c, node, h);
    OverlaidRows(base, EventList(c, node, h));
    var spends := EventsAt(c, node, h, Straight(c, node, h).htlcs, 0).spends;
    SamePeeks(c, Follow(c, node, base, 0, h).htlcs, Straight(c, node, h).htlcs, h, spends);
  }

  // Walking from genesis over old rows builds, block by block, the events of a first walk
  // exactly when every spend of a held HTLC comes in a later block than its lock. A lock
  // spent in its own block has no settlement on the first walk and gains one on the second.
  lemma {:induction false} ReWalkBuildsSameEvents(c: Crate, node: Node, base: Tables, n: nat)
    requires n <= |node.chain| <= U64_MAX
    ensures SameEventsOver(c, node, base, n) <==> LockedBefore(c, node, base, n)
  {
    hide EventsOf, ApplyData, Follow, SpendKey;
    if n > 0 {
      ReWalkBuildsSameEvents(c, node, base, n - 1);
      EventListPrefix(c, node, n);
      LockedBeforeSplits(c, node, base, n);
      if SameEventsOver(c, node, base, n - 1) {
        SameEventsHere(c, node, base, n - 1);
      }
    }
  }

  lemma LockedBeforeSplits(c: Crate, node: Node, base: Tables, n: nat)
    requires 0 < n <= |node.chain| <= U64_MAX
    ensures LockedBefore(c, node, base, n) <==>
            && LockedBefore(c, node, base, n - 1)
            && forall s :: s in EventsAt(c, node, n - 1, Straight(c, node, n - 1).htlcs, 0).spends && SpendKey(s) in base.htlcs ==>
                 SpendKey(s) in Straight(c, node, n - 1).htlcs
  {
    hide EventsOf, ApplyData, Follow, SpendKey;
    var all, before := EventList(c, node, n), EventList(c, node, n - 1);
    assert forall h :: 0 <= h < n - 1 ==> all[h] == before[h];
  }

  lemma {:induction false} EventListTake(c: Crate, node: Node, n: nat, m: nat)
    requires n <= m <= |node.chain| <= U64_MAX
    ensures EventList(c, node, m)[..n] == EventList(c, node, n)
    decreases m
  {
    hide EventsOf;
    if n < m {
      EventListTake(c, node, n, m - 1);
      EventListPrefix(c, node, m);
      hide EventList;
      assert EventList(c, node, m)[..n] == EventList(c, node, m - 1)[..n];
    }
  }

  // What a migrated store starts from: the rows of an earlier walk, or the same without the
  // datum tables, which an older release did not have.
  ghost predicate OldRows(c: Crate, node: Node, base: Tables, n: nat)
    requires n <= |node.chain| <= U64_MAX
  {
    var walked := Straight(c, node, n);
    base == walked || base == walked.(datums := map[], quotes := {})
  }

  lemma FollowNothing(c: Crate, node: Node, t: Tables)
    requires |node.chain| <= U64_MAX
    ensures Follow(c, node, t, 0, 0) == t
  {}

  // ---- A spend in the block of its lock ------------------------------------------------------

  // The first block of the walk that spends an outpoint the old rows hold and the blocks
  // before it do not.
  lemma {:induction false} FirstEarlySpend(c: Crate, node: Node, base: Tables, m: nat) returns (h: nat, s: HtlcSpend)
    requires m <= |node.chain| <= U64_MAX && !LockedBefore(c, node, base, m)
    ensures h < m && LockedBefore(c, node, base, h)
    ensures s in EventsAt(c, node, h, Straight(c, node, h).htlcs, 0).spends
    ensures SpendKey(s) in base.htlcs && SpendKey(s) !in Straight(c, node, h).htlcs
  {
    hide EventsOf, Follow, SpendKey;
    LockedBeforeSplits(c, node, base, m);
    if LockedBefore(c, node, base, m - 1) {
      h := m - 1;
      s :| s in EventsAt(c, node, h, Straight(c, node, h).htlcs, 0).spends
           && SpendKey(s) in base.htlcs && SpendKey(s) !in Straight(c, node, h).htlcs;
    } else {
      h, s := FirstEarlySpend(c, node, base, m - 1);
    }
  }

  // A row walked is an open lock advanced by the first spend from its block on.
  lemma RowSource(c: Crate, node: Node, n: nat, k: Bytes) returns (h: nat, lock: HtlcRecord, spend: Option<HtlcOp>)
    requires n <= |node.chain| <= U64_MAX && k in Straight(c, node, n).htlcs
    ensures h < n && lock in EventsAt(c, node, h, Straight(c, node, h).htlcs, 0).locks && HtlcKey(lock) == k
    ensures Straight(c, node, n).htlcs[k] == AdvanceBy(lock, spend)
    ensures spend == FirstSpend(Flat(SpendOps, EventList(c, node, n)[h..]), k)
  {
    hide WalkData, Flat, EventsOf, Follow, EventList, LastLock, FirstSpend, HtlcKey;
    var bs := EventList(c, node, n);
    StraightIsWalk(c, node, n);
    HtlcRefinement(EMPTY, bs, k);
    LastLockMeans(bs, k);
    h, lock := LastLock(bs, k).value.block, LastLock(bs, k).value.record;
    spend := FirstSpend(Flat(SpendOps, bs[h..]), k);
    EventListAt(c, node, n, h);
  }

  // An outpoint locked below `h` has a row after `h` blocks.
  lemma LocksStay(c: Crate, node: Node, h: nat, h0: nat, lock: HtlcRecord)
    requires h0 < h <= |node.chain| <= U64_MAX
    requires lock in EventsAt(c, node, h0, Straight(c, node, h0).htlcs, 0).locks
    ensures HtlcKey(lock) in Straight(c, node, h).htlcs
  {
    hide WalkData, Flat, EventsOf, Follow, EventList, LastLock, FirstSpend, HtlcKey;
    var bs, k := EventList(c, node, h), HtlcKey(lock);
    StraightIsWalk(c, node, h);
    HtlcRefinement(EMPTY, bs, k);
    LastLockMeans(bs, k);
    EventListAt(c, node, h, h0);
    LastLockInMeans(bs[h0].locks, k);
    assert bs[h0] in bs;
  }

  // A spend in a stream of blocks is one of a block's spends.
  lemma SpendInList(c: Crate, node: Node, n: nat, from: nat, op: HtlcOp) returns (g: nat)
    requires from <= n <= |node.chain| <= U64_MAX
    requires op in Flat(SpendOps, EventList(c, node, n)[from..]) && op.Spend?
    ensures from <= g < n && op.spend in EventsAt(c, node, g, Straight(c, node, g).htlcs, 0).spends && op.height == g
  {
    hide EventsOf, Follow, EventList, Flat;
    var bs := EventList(c, node, n)[from..];
    FlatIn(SpendOps, bs, op);
    var i :| 0 <= i < |bs| && op in SpendOps(bs[i]);
    g := from + i;
    EventListAt(c, node, n, g);
    EventsNames(c, node, node.chain[g], g, Straight(c, node, g).htlcs, 0);
    var j :| 0 <= j < |SpendOps(bs[i])| && SpendOps(bs[i])[j] == op;
  }

  // An old row that block `h` spends too early names a transaction of `h` or a later block.
  lemma EarlyRowNames(c: Crate, node: Node, n: nat, h: nat, k: Bytes) returns (g: nat)
    requires n <= |node.chain| <= U64_MAX && h < |node.chain| && SoundTxs(node)
    requires k in Straight(c, node, n).htlcs && k !in Straight(c, node, h).htlcs
    ensures h <= g < |node.chain| && NamedTx(Straight(c, node, n).htlcs[k]) in node.chain[g].transactions
  {
    hide SoundTxs, OwnIds, EventsOf, Follow, EventList, HtlcKey, Flat, FirstSpend;
    SoundParts(node);
    var h0, lock, spend := RowSource(c, node, n, k);
    if h0 < h {
      LocksStay(c, node, h, h0, lock);
    }
    LocksAreFresh(c, node, node.chain[h0], h0, Straight(c, node, h0).htlcs);
    assert FreshLock(lock, EventsAt(c, node, h0, Straight(c, node, h0).htlcs, 0).height);
    FirstSpendIsSpend(Flat(SpendOps, EventList(c, node, n)[h0..]), k);
    if spend.Some? {
      g := SpendInList(c, node, n, h0, spend.value);
      ArmNamesTx(c, node, g, Straight(c, node, g).htlcs, spend.value.spend);
      AdvancedNames(lock, spend.value.spend.arm, spend.value.height);
    } else {
      g := h0;
      LocksIn(c, node, h0, Straight(c, node, h0).htlcs, lock);
    }
  }

  // Until block `h` spends it, walking over the old rows leaves such a row alone.
  lemma EarlyRowStays(c: Crate, node: Node, base: Tables, h: nat, s: HtlcSpend)
    requires h < |node.chain| <= U64_MAX && SoundTxs(node) && LockedBefore(c, node, base, h)
    requires s in EventsAt(c, node, h, Straight(c, node, h).htlcs, 0).spends
    requires SpendKey(s) in base.htlcs && SpendKey(s) !in Straight(c, node, h).htlcs
    ensures Get(Follow(c, node, base, 0, h).htlcs, SpendKey(s)) == Some(base.htlcs[SpendKey(s)])
  {
    hide SoundTxs, Follow, EventList, SpendKey, HtlcKey, Flat, FirstSpend, LastLock, WalkData, LockedBefore, Bodies;
    var bs, k := EventList(c, node, h), SpendKey(s);
    ReWalkBuildsSameEvents(c, node, base, h);
    SameEventsWalk(c, node, base, h);
    StraightIsWalk(c, node, h);
    HtlcRefinement(EMPTY, bs, k);
    HtlcRefinement(base, bs, k);
    var spend := FirstSpend(Flat(SpendOps, bs), k);
    FirstSpendIsSpend(Flat(SpendOps, bs), k);
    if spend.Some? {
      assert bs[0..] == bs;
      var g := SpendInList(c, node, h, 0, spend.value);
      SpentInOneBlock(c, node, g, spend.value.spend, h, s);
    }
  }

  // The store then gains a settlement row that no first walk has.
  lemma EarlySpendShows(c: Crate, node: Node, base: Tables, n: nat, m: nat)
    requires n <= m <= |node.chain| <= U64_MAX && SoundTxs(node) && OldRows(c, node, base, n)
    requires !LockedBefore(c, node, base, m)
    ensures Follow(c, node, base, 0, m) != Straight(c, node, m)
  {
    hide SoundTxs, EventsOf, Follow, EventList, SpendKey, LockedBefore;
    var h, s := FirstEarlySpend(c, node, base, m);
    EarlyRowStays(c, node, base, h, s);
    var g := EarlyRowNames(c, node, n, h, SpendKey(s));
    var w := Follow(c, node, base, 0, h);
    SameSpends(c, node, h, w.htlcs, Straight(c, node, h).htlcs);
    PeekMisnames(c, node, w, h, m, g, s);
    FollowConcat(c, node, base, 0, h, m);
  }

  lemma SameSpends(c: Crate, node: Node, h: nat, htlcs: map<Bytes, HtlcRecord>, htlcs': map<Bytes, HtlcRecord>)
    requires h < |node.chain| <= U64_MAX
    ensures EventsAt(c, node, h, htlcs, 0).spends == EventsAt(c, node, h, htlcs', 0).spends
  {}

  // ---- Everything but the settlements ------------------------------------------------------

  ghost predicate ButSettlements(t: Tables, t': Tables) {
    t' == t.(settlements := t'.settlements)
  }

  lemma StepButSettlements(t: Tables, t': Tables, ev: BlockEvents, settlements: seq<SettlementRecord>)
    requires ButSettlements(t, t')
    ensures ButSettlements(ApplyData(t, ev), ApplyData(t', ev.(settlements := settlements)))
  {
    var ev' := ev.(settlements := settlements);
    assert HtlcOps(ev') == HtlcOps(ev);
    assert ActivityPuts(ev') == ActivityPuts(ev);
    assert SpentByPuts(ev') == SpentByPuts(ev);
    assert DatumPuts(ev') == DatumPuts(ev);
    assert BlockPuts(ev') == BlockPuts(ev);
  }

  lemma EventsButSettlements(c: Crate, node: Node, h: nat, htlcs: map<Bytes, HtlcRecord>, htlcs': map<Bytes, HtlcRecord>)
    requires h < |node.chain| <= U64_MAX
    ensures var ev, ev' := EventsAt(c, node, h, htlcs, 0), EventsAt(c, node, h, htlcs', 0);
            ev' == ev.(settlements := ev'.settlements)
  {}

  lemma {:induction false} FollowButSettlements(c: Crate, node: Node, base: Tables, m: nat)
    requires m <= |node.chain| <= U64_MAX
    ensures ButSettlements(WalkData(base, EventList(c, node, m)), Follow(c, node, base, 0, m))
  {
    hide EventsOf, ApplyData;
    if m > 0 {
      FollowButSettlements(c, node, base, m - 1);
      var walked, before := WalkData(base, EventList(c, node, m - 1)), Follow(c, node, base, 0, m - 1);
      var htlcs := Straight(c, node, m - 1).htlcs;
      var last, last' := EventsAt(c, node, m - 1, htlcs, 0), EventsAt(c, node, m - 1, before.htlcs, 0);
      EventsButSettlements(c, node, m - 1, htlcs, before.htlcs);
      StepButSettlements(walked, before, last, last'.settlements);
      WalkConcat(base, EventList(c, node, m - 1), [last]);
      WalkOne(walked, last);
    }
  }

  // Whatever the chain, the second walk rebuilds every table but the settlements.
  lemma BackfillButSettlements(c: Crate, node: Node, base: Tables, n: nat, m: nat)
    requires n <= m <= |node.chain| <= U64_MAX && OldRows(c, node, base, n)
    ensures ButSettlements(Straight(c, node, m), Follow(c, node, base, 0, m))
  {
    hide EventsOf, ApplyData;
    FollowButSettlements(c, node, base, m);
    StraightIsWalk(c, node, m);
    StraightIsWalk(c, node, n);
    if m > 0 {
      EventListTake(c, node, n, m);
      hide Follow, WalkData;
      Backfill(EventList(c, node, m), n, Missing, Missing);
    }
  }

  // ---- The theorem ----------------------------------------------------------------------------

  // The walk from genesis over the rows of the first `n` blocks, once it is past them, is one
  // straight walk if every held HTLC is spent in a later block than its lock; on a sound
  // chain only if.
  lemma BackfillConverges(c: Crate, node: Node, base: Tables, n: nat, m: nat)
    requires n <= m <= |node.chain| <= U64_MAX && OldRows(c, node, base, n)
    ensures LockedBefore(c, node, base, m) ==> Follow(c, node, base, 0, m) == Straight(c, node, m)
    ensures SoundTxs(node) ==> (Follow(c, node, base, 0, m) == Straight(c, node, m) <==> LockedBefore(c, node, base, m))
  {
    hide EventsOf, ApplyData, SpendKey, LockedBefore, SameEventsOver, SoundTxs;
    if LockedBefore(c, node, base, m) {
      ReWalkBuildsSameEvents(c, node, base, m);
      SameEventsWalk(c, node, base, m);
      StraightIsWalk(c, node, m);
      StraightIsWalk(c, node, n);
      if m > 0 {
        EventListTake(c, node, n, m);
        hide Follow, WalkData;
        Backfill(EventList(c, node, m), n, Missing, Missing);
      }
    } else if SoundTxs(node) {
      EarlySpendShows(c, node, base, n, m);
    }
  }

  // The same under failure: of the stores that ticks and restarts in any order reach from a
  // checkpoint a migration reset, those past the old rows are in step with the chain exactly
  // when the blocks they hold spend no held HTLC too early.
  lemma BackfillUnderFailure(c: Crate, node: Node, base: Tables, n: nat, es: seq<Event>, ss: seq<Store>)
    requires SoundNode(node) && n <= |node.chain| && OldRows(c, node, base, n)
    requires Session(c, node, es, ss) && ss[0].data == base && Current(ss[0].checkpoint) && Indexed(ss[0]) == 0
    ensures forall i :: 0 <= i < |ss| && n <= Indexed(ss[i]) ==>
              Indexed(ss[i]) <= |node.chain|
              && (LockedBefore(c, node, base, Indexed(ss[i])) ==> InSync(c, node, EMPTY, ss[i]))
              && (SoundTxs(node) ==> (InSync(c, node, EMPTY, ss[i]) <==> LockedBefore(c, node, base, Indexed(ss[i]))))
  {
    FollowNothing(c, node, base);
    hide Moves, Views, OldRows, LockedBefore, Follow, Fetchable, SoundTxs;
    WalkUnderFailure(c, node, base, es, ss);
    forall i | 0 <= i < |ss| && n <= Indexed(ss[i])
      ensures Indexed(ss[i]) <= |node.chain|
      ensures LockedBefore(c, node, base, Indexed(ss[i])) ==> InSync(c, node, EMPTY, ss[i])
      ensures SoundTxs(node) ==> (InSync(c, node, EMPTY, ss[i]) <==> LockedBefore(c, node, base, Indexed(ss[i])))
    {
      assert InSync(c, node, base, ss[i]);
      BackfillConverges(c, node, base, n, Indexed(ss[i]));
    }
  }

  // ---- Lifecycle during the second walk -------------------------------------------------------

  lemma {:induction false} TimelyConcat(m: map<Bytes, HtlcRecord>, ops: seq<HtlcOp>, more: seq<HtlcOp>)
    requires TimelyStream(m, ops) && TimelyStream(HtlcFold(m, ops), more)
    ensures TimelyStream(m, ops + more)
    decreases |ops|
  {
    hide HtlcStep, Timely;
    if ops == [] {
      assert ops + more == more;
    } else {
      assert (ops + more)[1..] == ops[1..] + more;
      TimelyConcat(HtlcStep(m, ops[0]), ops[1..], more);
    }
  }

  // Fresh locks leave other rows alone and put rows of this height.
  lemma {:induction false} LocksTimely(m: map<Bytes, HtlcRecord>, ops: seq<HtlcOp>, height: u64)
    requires OpsAt(ops, height) && forall i :: 0 <= i < |ops| ==> ops[i].Lock?
    ensures TimelyStream(m, ops)
    ensures forall k :: k in HtlcFold(m, ops) ==>
              HtlcFold(m, ops)[k].LockHeight() == height || (k in m && HtlcFold(m, ops)[k] == m[k])
    decreases |ops|
  {
    hide HtlcKey;
    if ops != [] {
      assert FreshLock(ops[0].record, height);
      LocksTimely(HtlcStep(m, ops[0]), ops[1..], height);
    }
  }

  lemma {:induction false} SpendsTimely(m: map<Bytes, HtlcRecord>, ops: seq<HtlcOp>, height: u64)
    requires OpsAt(ops, height)
    requires forall i :: 0 <= i < |ops| ==> ops[i].Spend? && (ops[i].Key() in m ==> m[ops[i].Key()].LockHeight() <= height)
    ensures TimelyStream(m, ops)
    decreases |ops|
  {
    hide SpendKey;
    if ops != [] {
      SpendsTimely(HtlcStep(m, ops[0]), ops[1..], height);
    }
  }

  // One block whose spends find, after its locks, no row of a later lock.
  lemma TimelyBlock(t: Tables, ev: BlockEvents)
    requires FreshLocks(ev) && AllLifecycle(t.htlcs)
    requires forall s :: s in ev.spends && SpendKey(s) in t.htlcs && t.htlcs[SpendKey(s)].LockHeight() > ev.height ==>
               exists r :: r in ev.locks && HtlcKey(r) == SpendKey(s)
    ensures AllLifecycle(ApplyData(t, ev).htlcs)
  {
    hide HtlcFold, TimelyStream, Lifecycle, FreshLock, HtlcKey, SpendKey, PutAll;
    OpsOfEvents(ev);
    var locks, spends := LockOps(ev), SpendOps(ev);
    assert forall i :: 0 <= i < |locks| ==> HtlcOps(ev)[i] == locks[i];
    assert forall i :: 0 <= i < |spends| ==> HtlcOps(ev)[|locks| + i] == spends[i];
    LocksTimely(t.htlcs, locks, ev.height);
    var m := HtlcFold(t.htlcs, locks);
    forall i | 0 <= i < |spends| ensures spends[i].Key() in m ==> m[spends[i].Key()].LockHeight() <= ev.height {
      var k := spends[i].Key();
      assert ev.spends[i] in ev.spends && k == SpendKey(ev.spends[i]);
      if r :| r in ev.locks && HtlcKey(r) == k {
        RelockedRow(t.htlcs, ev, r);
      }
    }
    SpendsTimely(m, spends, ev.height);
    TimelyConcat(t.htlcs, locks, spends);
    StreamKeepsLifecycle(t.htlcs, HtlcOps(ev));
  }

  lemma RelockedRow(m: map<Bytes, HtlcRecord>, ev: BlockEvents, r: HtlcRecord)
    requires FreshLocks(ev) && r in ev.locks
    ensures HtlcKey(r) in HtlcFold(m, LockOps(ev)) && HtlcFold(m, LockOps(ev))[HtlcKey(r)].LockHeight() == ev.height
  {
    hide HtlcFold, HtlcKey, Cell, LastLockIn;
    var k := HtlcKey(r);
    FoldCell(m, LockOps(ev), k);
    assert ev.locks[..|ev.locks|] == ev.locks && LockOps(ev)[..|ev.locks|] == LockOps(ev);
    CellOfLocks(Get(m, k), ev, |ev.locks|, k);
    LastLockInMeans(ev.locks, k);
    var last := LastLockIn(ev.locks, k).value;
    var j :| 0 <= j < |ev.locks| && ev.locks[j] == last;
    assert FreshLock(ev.locks[j], ev.height);
  }

  // No block spends an HTLC that only a later block locks.
  ghost predicate LocksComeFirst(c: Crate, node: Node, n: nat)
    requires n <= |node.chain| <= U64_MAX
  {
    forall h, s :: 0 <= h < n && s in EventsAt(c, node, h, Straight(c, node, h).htlcs, 0).spends
                   && SpendKey(s) in Straight(c, node, n).htlcs ==>
      SpendKey(s) in Straight(c, node, h + 1).htlcs
  }

  lemma {:induction false} RowsStay(c: Crate, node: Node, n: nat, m: nat, k: Bytes)
    requires n <= m <= |node.chain| <= U64_MAX && k in Straight(c, node, n).htlcs
    ensures k in Straight(c, node, m).htlcs
    decreases m
  {
    hide EventsOf, ApplyData;
    if n < m {
      RowsStay(c, node, n, m - 1, k);
      var before := Straight(c, node, m - 1);
      var ev := EventsAt(c, node, m - 1, before.htlcs, 0);
      WalkOne(before, ev);
      WalkOnlyGrows(before, [ev]);
    }
  }

  // Walking over old rows, a row of a later lock is the old one, or this block locks it.
  lemma LaterLock(c: Crate, node: Node, base: Tables, n: nat, h: nat, s: HtlcSpend)
    requires n <= |node.chain| <= U64_MAX && h < |node.chain| && OldRows(c, node, base, n) && LocksComeFirst(c, node, n)
    requires s in EventsAt(c, node, h, Straight(c, node, h).htlcs, 0).spends
    requires var m := Follow(c, node, base, 0, h).htlcs; SpendKey(s) in m && m[SpendKey(s)].LockHeight() > h
    ensures exists r :: r in EventsAt(c, node, h, Straight(c, node, h).htlcs, 0).locks && HtlcKey(r) == SpendKey(s)
  {
    hide EventsOf, ApplyData, Follow, WalkData, EventList, HtlcKey, SpendKey;
    var k := SpendKey(s);
    FollowButSettlements(c, node, base, h);
    StraightIsWalk(c, node, h);
    OverlaidRows(base, EventList(c, node, h));
    FollowedLifecycle(c, node, h);
    if h >= n {
      RowsStay(c, node, n, h, k);
    } else {
      StraightNext(c, node, h, k);
    }
  }

  lemma StraightNext(c: Crate, node: Node, h: nat, k: Bytes)
    requires h < |node.chain| <= U64_MAX && k in Straight(c, node, h + 1).htlcs
    ensures k in Straight(c, node, h).htlcs || exists r :: r in EventsAt(c, node, h, Straight(c, node, h).htlcs, 0).locks && HtlcKey(r) == k
  {
    hide EventsOf, HtlcFold, HtlcKey, PutAll;
    var before := Straight(c, node, h);
    var ev := EventsAt(c, node, h, before.htlcs, 0);
    FoldKeys(before.htlcs, HtlcOps(ev), k);
    if i :| 0 <= i < |HtlcOps(ev)| && HtlcOps(ev)[i].Lock? && HtlcOps(ev)[i].Key() == k {
      LockOpOf(ev, i);
    }
  }

  // So on such chains the second walk keeps the lifecycle from its first block to its last.
  lemma {:induction false} SecondWalkKeepsLifecycle(c: Crate, node: Node, base: Tables, n: nat, h: nat)
    requires n <= |node.chain| <= U64_MAX && h <= |node.chain| && OldRows(c, node, base, n) && LocksComeFirst(c, node, n)
    ensures AllLifecycle(Follow(c, node, base, 0, h).htlcs)
  {
    hide EventsOf, ApplyData, AllLifecycle, FreshLocks, SpendKey, HtlcKey, OldRows, LocksComeFirst;
    if h == 0 {
      OldRowsLifecycle(c, node, base, n);
    } else {
      SecondWalkKeepsLifecycle(c, node, base, n, h - 1);
      var before := Follow(c, node, base, 0, h - 1);
      var ev := EventsAt(c, node, h - 1, before.htlcs, 0);
      LocksAreFresh(c, node, node.chain[h - 1], h - 1, before.htlcs);
      EventsNames(c, node, node.chain[h - 1], h - 1, before.htlcs, 0);
      EventsButSettlements(c, node, h - 1, Straight(c, node, h - 1).htlcs, before.htlcs);
      forall s | s in ev.spends && SpendKey(s) in before.htlcs && before.htlcs[SpendKey(s)].LockHeight() > ev.height
        ensures exists r :: r in ev.locks && HtlcKey(r) == SpendKey(s)
      {
        LaterLock(c, node, base, n, h - 1, s);
      }
      TimelyBlock(before, ev);
    }
  }

  lemma OldRowsLifecycle(c: Crate, node: Node, base: Tables, n: nat)
    requires n <= |node.chain| <= U64_MAX && OldRows(c, node, base, n)
    ensures AllLifecycle(base.htlcs)
  {
    hide Follow, AllLifecycle;
    FollowedLifecycle(c, node, n);
  }

  // The lifecycle of HTLC rows over whole runs of the second walk: once the old rows are
  // passed on any chain, and all along where no HTLC is spent before it is locked.
  lemma ReindexedLifecycle(c: Crate, node: Node, base: Tables, n: nat, es: seq<Event>, ss: seq<Store>)
    requires SoundNode(node) && n <= |node.chain| && OldRows(c, node, base, n)
    requires Session(c, node, es, ss) && ss[0].data == base && Current(ss[0].checkpoint) && Indexed(ss[0]) == 0
    ensures forall i :: 0 <= i < |ss| && (n <= Indexed(ss[i]) || LocksComeFirst(c, node, n)) ==> AllLifecycle(ss[i].data.htlcs)
  {
    FollowNothing(c, node, base);
    hide Moves, Views, OldRows, Follow, Fetchable, AllLifecycle, LocksComeFirst;
    WalkUnderFailure(c, node, base, es, ss);
    forall i | 0 <= i < |ss| && (n <= Indexed(ss[i]) || LocksComeFirst(c, node, n)) ensures AllLifecycle(ss[i].data.htlcs) {
      assert InSync(c, node, base, ss[i]);
      if n <= Indexed(ss[i]) {
        BackfillButSettlements(c, node, base, n, Indexed(ss[i]));
        FollowedLifecycle(c, node, Indexed(ss[i]));
      } else {
        SecondWalkKeepsLifecycle(c, node, base, n, Indexed(ss[i]));
      }
    }
  }
}
