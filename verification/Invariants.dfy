/**
 What every run of the follower keeps: ticks against any nodes at all, agreeing with
 one another or not, interrupted anywhere, and restarts.
 */
module Invariants {
  import opened ByteStrings
  import opened Records
  import opened Keys
  import opened Folds
  import opened Tables
  import opened Paging
  import opened Queries
  import opened Runs
  import opened Extract
  import opened Blocks
  import opened Following
  import opened Sessions
  import opened Guarantees

  // A property of the tables, and of the number of blocks the checkpoint claims, that the
  // follower's blocks and rewinds keep. A rewind keeps it before and after its checkpoint.
  ghost predicate Inductive(c: Crate, p: (Tables, nat) -> bool) {
    && (forall node: Node, t: Tables, h: nat :: KeptByBlock(c, node, t, h, p))
    && (forall t: Tables, n: nat, cut: u64 :: KeptByRewind(t, n, cut, p))
  }

  ghost predicate KeptByBlock(c: Crate, node: Node, t: Tables, h: nat, p: (Tables, nat) -> bool) {
    SoundNode(node) && h < |node.chain| && p(t, h) ==> p(ApplyData(t, EventsAt(c, node, h, t.htlcs, 0)), h + 1)
  }

  ghost predicate KeptByRewind(t: Tables, n: nat, cut: u64, p: (Tables, nat) -> bool) {
    p(t, n) && cut < n ==> p(WipeData(t, cut), cut + 1) && p(WipeData(t, cut), n)
  }

  lemma {:induction false} FollowKeeps(c: Crate, node: Node, t: Tables, from: nat, end: nat, p: (Tables, nat) -> bool)
    requires Inductive(c, p) && SoundNode(node) && from <= end <= |node.chain| && p(t, from)
    ensures p(Follow(c, node, t, from, end), end)
    decreases end
  {
    hide EventsOf, ApplyData, WipeData;
    if from != end {
      FollowKeeps(c, node, t, from, end - 1, p);
      assert KeptByBlock(c, node, Follow(c, node, t, from, end - 1), end - 1, p);
    }
  }

  lemma CaughtKeeps(c: Crate, node: Node, m: FollowerMeta, s: Store, s': Store, done: bool, p: (Tables, nat) -> bool)
    requires Inductive(c, p) && SoundNode(node) && Caught(c, node, m, s, s', done)
    requires Current(s.checkpoint) && m.schemaVersion >= SCHEMA_VERSION
    requires Indexed(s) == StartHeight(m) && p(s.data, Indexed(s))
    ensures Current(s'.checkpoint) && p(s'.data, Indexed(s'))
  {
    hide Inductive, Follow, Fetchable;
    var from := StartHeight(m);
    if from < |node.chain| {
      var end :| && from <= end <= |node.chain| && (done ==> end == |node.chain|)
                 && FetchableRange(node, from, end) && s' == Walked(c, node, s, from, end, m.startedAt);
      if from == end {
        WalkedNowhere(c, node, s, from, m.startedAt);
      } else {
        FollowKeeps(c, node, s.data, from, end, p);
        BlockIdsTellStart(node, end - 1, s'.checkpoint.meta);
      }
    }
  }

  lemma TickKeeps(c: Crate, node: Node, now: u64, s: Store, s': Store, done: bool, p: (Tables, nat) -> bool)
    requires Inductive(c, p) && SoundNode(node) && Ticked(c, node, now, s, s', done)
    requires Current(s.checkpoint) && p(s.data, Indexed(s))
    ensures Current(s'.checkpoint) && p(s'.data, Indexed(s'))
  {
    hide Caught, Fetchable, WipeData;
    var m := Started(s.checkpoint.meta, now);
    if m.lastIndexedHeight < |node.chain| {
      if Diverged(node, m) {
        var cut: u64 := m.lastIndexedHeight - 1;
        assert KeptByRewind(s.data, Indexed(s), cut, p);
        var back := SteppedBack(node, m);
        BlockIdsTellStart(node, cut, back);
        var wiped := WipeData(s.data, cut);
        hide Inductive;
        if Caught(c, node, back, Store(wiped, Stored(back)), s', done) {
          CaughtKeeps(c, node, back, Store(wiped, Stored(back)), s', done, p);
        }
      } else {
        hide Inductive;
        CaughtKeeps(c, node, m, s, s', done, p);
      }
    }
  }

  // A run: each step a tick against some node, whichever it is, or a restart.
  ghost predicate AnyRun(c: Crate, es: seq<Event>, ss: seq<Store>) {
    |ss| == |es| + 1 && forall i :: 0 <= i < |es| ==> Moves(c, es[i], ss[i], ss[i + 1])
  }

  lemma StepKeeps(c: Crate, e: Event, s: Store, s': Store, p: (Tables, nat) -> bool)
    requires Inductive(c, p) && Moves(c, e, s, s')
    requires Current(s.checkpoint) && p(s.data, Indexed(s))
    ensures Current(s'.checkpoint) && p(s'.data, Indexed(s'))
  {
    hide Inductive, Ticked;
    match e
    case Ticks(node, now) =>
      var done :| Ticked(c, node, now, s, s', done);
      TickKeeps(c, node, now, s, s', done, p);
    case Restarts =>
      OpeningMigrates(s.checkpoint);
  }

  lemma {:induction false} RunKeeps(c: Crate, es: seq<Event>, ss: seq<Store>, p: (Tables, nat) -> bool)
    requires Inductive(c, p) && AnyRun(c, es, ss)
    requires Current(ss[0].checkpoint) && p(ss[0].data, Indexed(ss[0]))
    ensures forall i :: 0 <= i < |ss| ==> Current(ss[i].checkpoint) && p(ss[i].data, Indexed(ss[i]))
  {
    hide Inductive, Moves, Current, Indexed;
    if es != [] {
      var n := |es| - 1;
      RunKeeps(c, es[..n], ss[..n + 1], p);
      assert ss[..n + 1][n] == ss[n];
      StepKeeps(c, es[n], ss[n], ss[n + 1], p);
      forall i | 0 <= i < n ensures Current(ss[i].checkpoint) && p(ss[i].data, Indexed(ss[i])) {
        assert ss[..n + 1][i] == ss[i];
      }
    }
  }

  // ---- Lifecycle --------------------------------------------------------------------

  ghost function HasLifecycle(): (Tables, nat) -> bool {
    (t: Tables, n: nat) => AllLifecycle(t.htlcs) && LockedBelow(t.htlcs, n)
  }

  ghost function HasOneOutcome(): (Tables, nat) -> bool {
    (t: Tables, n: nat) => AllOneOutcome(t.htlcs)
  }

  lemma BlockFacts(c: Crate, node: Node, t: Tables, h: nat)
    requires SoundNode(node) && h < |node.chain| && AllOneOutcome(t.htlcs)
    ensures var t' := ApplyData(t, EventsAt(c, node, h, t.htlcs, 0));
            && AllOneOutcome(t'.htlcs)
            && (AllLifecycle(t.htlcs) && LockedBelow(t.htlcs, h) ==> AllLifecycle(t'.htlcs) && LockedBelow(t'.htlcs, h + 1))
  {
    hide EventsOf, ApplyData, FreshLocks, AllLifecycle, AllOneOutcome;
    LocksAreFresh(c, node, node.chain[h], h, t.htlcs);
    EventsNames(c, node, node.chain[h], h, t.htlcs, 0);
    BlockKeepsLifecycle(t, EventsAt(c, node, h, t.htlcs, 0));
  }

  lemma RewindFacts(t: Tables, n: nat, cut: u64)
    ensures var t' := WipeData(t, cut);
            && (AllOneOutcome(t.htlcs) ==> AllOneOutcome(t'.htlcs))
            && (AllLifecycle(t.htlcs) ==> AllLifecycle(t'.htlcs))
            && (LockedBelow(t.htlcs, n) ==> LockedBelow(t'.htlcs, n)) && LockedBelow(t'.htlcs, cut + 1)
  {
    hide Lifecycle, OneOutcome, DroppedQuotes;
  }

  lemma LifecycleIsInductive(c: Crate)
    ensures Inductive(c, HasLifecycle()) && Inductive(c, HasOneOutcome())
  {
    hide EventsOf, ApplyData, WipeData, AllLifecycle, AllOneOutcome, LockedBelow;
    forall node: Node, t: Tables, h: nat
      ensures KeptByBlock(c, node, t, h, HasLifecycle()) && KeptByBlock(c, node, t, h, HasOneOutcome())
    {
      if SoundNode(node) && h < |node.chain| {
        if AllLifecycle(t.htlcs) {
          AllHaveOneOutcome(t.htlcs);
        }
        if AllOneOutcome(t.htlcs) {
          BlockFacts(c, node, t, h);
        }
      }
    }
    forall t: Tables, n: nat, cut: u64
      ensures KeptByRewind(t, n, cut, HasLifecycle()) && KeptByRewind(t, n, cut, HasOneOutcome())
    {
      RewindFacts(t, n, cut);
    }
  }

  // The HTLC lifecycle, over every run. Claimed rows have a claim and no reclaim, reclaimed
  // ones the reverse, open ones neither; none is settled before it was locked, and none
  // above the checkpoint.
  lemma LifecycleUnderFailure(c: Crate, es: seq<Event>, ss: seq<Store>)
    requires AnyRun(c, es, ss) && Current(ss[0].checkpoint)
    requires AllLifecycle(ss[0].data.htlcs) && LockedBelow(ss[0].data.htlcs, Indexed(ss[0]))
    ensures forall i :: 0 <= i < |ss| ==> AllLifecycle(ss[i].data.htlcs) && LockedBelow(ss[i].data.htlcs, Indexed(ss[i]))
  {
    hide AnyRun, AllLifecycle, LockedBelow, Inductive;
    LifecycleIsInductive(c);
    RunKeeps(c, es, ss, HasLifecycle());
    assert forall i :: 0 <= i < |ss| ==> HasLifecycle()(ss[i].data, Indexed(ss[i]));
  }

  // Over a store being indexed again rows lie above the checkpoint; each still has one
  // outcome at most.
  lemma OutcomesUnderFailure(c: Crate, es: seq<Event>, ss: seq<Store>)
    requires AnyRun(c, es, ss) && Current(ss[0].checkpoint) && AllOneOutcome(ss[0].data.htlcs)
    ensures forall i :: 0 <= i < |ss| ==> AllOneOutcome(ss[i].data.htlcs)
  {
    hide AnyRun, AllOneOutcome, Inductive;
    LifecycleIsInductive(c);
    RunKeeps(c, es, ss, HasOneOutcome());
    assert forall i :: 0 <= i < |ss| ==> HasOneOutcome()(ss[i].data, Indexed(ss[i]));
  }

  // ---- Unfiltered settlement lists -------------------------------------------------------

  // Every HTLC has the same template hash.
  ghost predicate OneTemplate(c: Crate) {
    forall p, p' :: c.contractHash(p) == c.contractHash(p')
  }

  ghost predicate OnlyTemplate(c: Crate, m: map<Bytes, SettlementRecord>) {
    && (forall k :: k in m ==> k == ContractKey(m[k]))
    && (forall k, p :: k in m ==> m[k].contractHash == c.contractHash(p))
  }

  ghost function HasOnlyTemplate(c: Crate): (Tables, nat) -> bool {
    (t: Tables, n: nat) => OnlyTemplate(c, t.settlements)
  }

  lemma BlockKeepsTemplate(c: Crate, node: Node, t: Tables, h: nat)
    requires OneTemplate(c) && SoundNode(node) && h < |node.chain| && OnlyTemplate(c, t.settlements)
    ensures OnlyTemplate(c, ApplyData(t, EventsAt(c, node, h, t.htlcs, 0)).settlements)
  {
    hide ContractKey, HtlcFold, HtlcOps, Flat, OneTemplate;
    var ev := EventsAt(c, node, h, t.htlcs, 0);
    var puts := SettlementPuts(ev);
    forall i, p | 0 <= i < |puts| ensures puts[i].value.contractHash == c.contractHash(p) {
      SettlementTemplate(c, t.htlcs, h, ev.spends, ev.settlements[i], p);
    }
    PutAllKeeps(t.settlements, puts, (k, s: SettlementRecord) => k == ContractKey(s));
    PutAllKeeps(t.settlements, puts, (k, s: SettlementRecord) => forall p :: s.contractHash == c.contractHash(p));
  }

  lemma SettlementTemplate(c: Crate, htlcs: map<Bytes, HtlcRecord>, height: u64, spends: seq<HtlcSpend>,
                           row: SettlementRecord, p: HtlcParams)
    requires OneTemplate(c) && row in Flat(SettledBy(c, htlcs, height), spends)
    ensures row.contractHash == c.contractHash(p)
  {
    FlatIn(SettledBy(c, htlcs, height), spends, row);
  }

  // With one template hash for all HTLCs, which is what the structural hash is for, the
  // stores the follower reaches have no such ties, and unfiltered lists page completely.
  lemma FollowedListsComplete(c: Crate, es: seq<Event>, ss: seq<Store>, i: nat, address: Hash, since: Option<u64>)
    requires OneTemplate(c) && AnyRun(c, es, ss) && Current(ss[0].checkpoint) && ss[0].data == EMPTY && i < |ss|
    ensures StrictOrder(RowCursorLt)
    ensures Complete(SettlementListing(ss[i].data.settlements, address, None, since), SettlementPlace, RowCursorLt)
  {
    hide AnyRun, SettlementListing, Complete, ApplyData, EventsOf, ContractKey, OneTemplate, SettlementKey, RowCursorLt;
    forall node: Node, t: Tables, h: nat ensures KeptByBlock(c, node, t, h, HasOnlyTemplate(c)) {
      if SoundNode(node) && h < |node.chain| && OnlyTemplate(c, t.settlements) {
        BlockKeepsTemplate(c, node, t, h);
      }
    }
    forall t: Tables, n: nat, cut: u64 ensures KeptByRewind(t, n, cut, HasOnlyTemplate(c)) {
    }
    RunKeeps(c, es, ss, HasOnlyTemplate(c));
    var m := ss[i].data.settlements;
    assert HasOnlyTemplate(c)(ss[i].data, Indexed(ss[i]));
    SettlementsComplete(m, address, since);
    forall h, t ensures !TwoContracts(m, address, since, h, t) {
      OneContract(c, m, address, since, h, t);
    }
  }

  lemma KeyedByTemplate(c: Crate, m: map<Bytes, SettlementRecord>, a: Hash, address: Hash, h: u64, t: Hash, p: HtlcParams)
    requires OnlyTemplate(c, m) && SettlementKey(a, address, h, t) in m
    ensures a == c.contractHash(p)
  {
    hide SettlementKey;
    var x := m[SettlementKey(a, address, h, t)];
    SettlementKeyInjective(a, address, h, t, x.contractHash, x.observerAddress, x.blockHeight, x.txId);
  }

  lemma OneContract(c: Crate, m: map<Bytes, SettlementRecord>, address: Hash, since: Option<u64>, h: u64, t: Hash)
    requires OnlyTemplate(c, m)
    ensures !TwoContracts(m, address, since, h, t)
  {
    hide SettlementKey, OnlyTemplate;
    var p := HtlcParams(address, address, address, 0);
    forall a | SettlementKey(a, address, h, t) in m ensures a == c.contractHash(p) {
      KeyedByTemplate(c, m, a, address, h, t, p);
    }
  }
}
