/** What every sequence of store transitions keeps. */
module Runs {
  import opened ByteStrings
  import opened Records
  import opened Keys
  import opened Folds
  import opened Tables
  import opened Replay
  import opened Rewind
  import opened Database

  // The transitions of the store: a block, a rewind, a cursor save by the follower
  // (which keeps the version it loaded) and a restart of the process.
  datatype Action =
    | ApplyBlock(ev: BlockEvents)
    | WipeAbove(cut: u64)
    | SaveCursor(height: u64, blockId: Hash, fullScanComplete: bool, startedAt: u64)
    | Reopen

  function Loaded(c: Checkpoint): Result<FollowerMeta> {
    match c
    case Stored(m) => Ok(m)
    case Missing => Ok(DEFAULT_META)
    case Undecodable => Err
  }

  function Step(s: Store, a: Action): Store {
    match a
    case ApplyBlock(ev) => Apply(s, ev)
    case WipeAbove(cut) => Store(WipeData(s.data, cut), s.checkpoint)
    case SaveCursor(height, id, scan, started) =>
      (match Loaded(s.checkpoint)
       case Ok(m) => Store(s.data, Stored(FollowerMeta(height, id, scan, started, m.schemaVersion)))
       case Err => s)
    case Reopen => Store(s.data, Migrated(s.checkpoint))
  }

  function Run(s: Store, actions: seq<Action>): Store
    decreases |actions|
  {
    if actions == [] then s else Run(Step(s, actions[0]), actions[1..])
  }

  // Any run of the store's own methods is a run of these transitions, and keeps the indexes
  // in agreement with the rows.
  method Perform(db: Db, actions: seq<Action>)
    requires db.Valid()
    modifies db
    ensures db.Valid()
    ensures db.Contents() == Run(old(db.Contents()), actions)
  {
    hide ApplyData, WipeData;
    ghost var s := db.Contents();
    for i := 0 to |actions|
      invariant db.Valid()
      invariant Run(db.Contents(), actions[i..]) == Run(s, actions)
    {
      assert actions[i..][1..] == actions[i + 1..];
      match actions[i] {
        case ApplyBlock(ev) => db.ApplyBlockEvents(ev);
        case WipeAbove(cut) => db.WipeAbove(cut);
        case SaveCursor(height, id, scan, started) =>
          var loaded := db.LoadMeta();
          if loaded.Ok? {
            db.SaveMeta(FollowerMeta(height, id, scan, started, loaded.value.schemaVersion));
          }
        case Reopen => db.Reopen();
      }
    }
  }

  // ---- Migration ------------------------------------------------------------

  ghost predicate Current(c: Checkpoint) {
    c.Stored? && c.meta.schemaVersion >= SCHEMA_VERSION
  }

  // Where the next tick starts walking.
  function StartHeight(m: FollowerMeta): nat {
    if m.lastIndexedBlockId == ZERO_HASH && m.lastIndexedHeight == 0 then 0 else m.lastIndexedHeight + 1
  }

  // Opening makes the version current. A readable start time survives, an unreadable one is
  // lost. Anything older than the current version, readable or not, is sent back to walk from
  // genesis; anything else is left alone.
  lemma OpeningMigrates(c: Checkpoint)
    ensures Current(Migrated(c))
    ensures c.Stored? ==> Migrated(c).meta.startedAt == c.meta.startedAt
    ensures !c.Stored? ==> Migrated(c).meta.startedAt == 0
    ensures !Current(c) ==> StartHeight(Migrated(c).meta) == 0 && !Migrated(c).meta.fullScanComplete
    ensures Migrated(c) == c <==> Current(c)
    ensures Current(c) <==> c.Stored? && c.meta.schemaVersion >= 1
  {
    assert DEFAULT_META.lastIndexedBlockId == ZERO_HASH;
  }

  // So the reindex happens at most once: after one opening, whatever blocks, rewinds, saves
  // and further openings follow, the version stays current and no opening changes anything.
  lemma {:induction false} MigratedOnce(s: Store, actions: seq<Action>)
    requires Current(s.checkpoint)
    ensures Current(Run(s, actions).checkpoint)
    ensures Step(Run(s, actions), Reopen) == Run(s, actions)
    decreases |actions|
  {
    if actions != [] {
      MigratedOnce(Step(s, actions[0]), actions[1..]);
    } else {
      OpeningMigrates(s.checkpoint);
    }
  }

  // ---- Keys -----------------------------------------------------------------

  // In every reachable state each primary key is the one its row encodes.
  lemma {:induction false} RunShaped(s: Store, actions: seq<Action>)
    requires Shaped(s.data)
    ensures Shaped(Run(s, actions).data)
    decreases |actions|
  {
    hide Shaped, ApplyData, WipeData;
    if actions != [] {
      match actions[0]
      case ApplyBlock(ev) =>
        ApplyShaped(s.data, ev);
        RunShaped(Step(s, actions[0]), actions[1..]);
      case WipeAbove(cut) =>
        WipeShaped(s.data, cut);
        RunShaped(Step(s, actions[0]), actions[1..]);
      case _ =>
        RunShaped(Step(s, actions[0]), actions[1..]);
    }
  }

  // ---- HTLC lifecycle -------------------------------------------------------

  // A lock as extraction makes it.
  predicate FreshLock(r: HtlcRecord, height: u64) {
    && (r.state.Locked? || r.state.LockedExpired?)
    && r.claim.None? && r.reclaim.None?
    && r.lockBlockHeight == Some(height)
  }

  // Claimed with a claim only, reclaimed with a reclaim only, or open with neither.
  predicate OneOutcome(r: HtlcRecord) {
    match r.state
    case Claimed => r.claim.Some? && r.reclaim.None?
    case Reclaimed => r.reclaim.Some? && r.claim.None?
    case Locked => r.claim.None? && r.reclaim.None?
    case LockedExpired => r.claim.None? && r.reclaim.None?
    case Unknown => false
  }

  // Moreover never settled before it was locked.
  predicate Lifecycle(r: HtlcRecord) {
    && OneOutcome(r)
    && (r.claim.Some? ==> r.claim.value.blockHeight >= r.LockHeight())
    && (r.reclaim.Some? ==> r.reclaim.value.blockHeight >= r.LockHeight())
  }

  ghost predicate AllOneOutcome(m: map<Bytes, HtlcRecord>) {
    forall k :: k in m ==> OneOutcome(m[k])
  }

  ghost predicate AllLifecycle(m: map<Bytes, HtlcRecord>) {
    forall k :: k in m ==> Lifecycle(m[k])
  }

  // An operation that locks freshly, or spends no record locked later than itself.
  ghost predicate Timely(m: map<Bytes, HtlcRecord>, op: HtlcOp) {
    match op
    case Lock(r) => exists h :: FreshLock(r, h)
    case Spend(s, height) => SpendKey(s) in m ==> m[SpendKey(s)].LockHeight() <= height
  }

  ghost predicate TimelyStream(m: map<Bytes, HtlcRecord>, ops: seq<HtlcOp>)
    decreases |ops|
  {
    ops != [] ==> Timely(m, ops[0]) && TimelyStream(HtlcStep(m, ops[0]), ops[1..])
  }

  lemma {:induction false} StreamKeepsLifecycle(m: map<Bytes, HtlcRecord>, ops: seq<HtlcOp>)
    requires AllLifecycle(m) && TimelyStream(m, ops)
    ensures AllLifecycle(HtlcFold(m, ops))
    decreases |ops|
  {
    if ops != [] {
      StreamKeepsLifecycle(HtlcStep(m, ops[0]), ops[1..]);
    }
  }

  // Blocks applied in the follower's order are timely: every lock carries its block's
  // height and the heights do not go back below a stored lock.
  lemma {:induction false} InOrderIsTimely(m: map<Bytes, HtlcRecord>, ops: seq<HtlcOp>, height: u64)
    requires forall k :: k in m ==> m[k].LockHeight() <= height
    requires OpsAt(ops, height)
    ensures TimelyStream(m, ops)
    ensures forall k :: k in HtlcFold(m, ops) ==> HtlcFold(m, ops)[k].LockHeight() <= height
    decreases |ops|
  {
    if ops != [] {
      var m' := HtlcStep(m, ops[0]);
      assert ops[0].Lock? ==> FreshLock(ops[0].record, height);
      forall k | k in m' ensures m'[k].LockHeight() <= height {
        assert k in m || (ops[0].Lock? && k == HtlcKey(ops[0].record));
      }
      InOrderIsTimely(m', ops[1..], height);
    }
  }

  // Fresh locks and spends of one height.
  ghost predicate OpsAt(ops: seq<HtlcOp>, height: u64) {
    forall i :: 0 <= i < |ops| ==>
      (ops[i].Lock? ==> FreshLock(ops[i].record, height)) && (ops[i].Spend? ==> ops[i].height == height)
  }

  ghost predicate FreshLocks(ev: BlockEvents) {
    forall i :: 0 <= i < |ev.locks| ==> FreshLock(ev.locks[i], ev.height)
  }

  lemma OpsOfEvents(ev: BlockEvents)
    requires FreshLocks(ev)
    ensures OpsAt(HtlcOps(ev), ev.height)
  {
    hide FreshLock;
    var ops := HtlcOps(ev);
    forall i | 0 <= i < |ops|
      ensures (ops[i].Lock? ==> FreshLock(ops[i].record, ev.height)) && (ops[i].Spend? ==> ops[i].height == ev.height)
    {
      assert i < |ev.locks| ==> ops[i] == Lock(ev.locks[i]);
      assert i >= |ev.locks| ==> ops[i] == HtlcOp.Spend(ev.spends[i - |ev.locks|], ev.height);
    }
  }

  ghost predicate LockedBelow(m: map<Bytes, HtlcRecord>, n: nat) {
    forall k :: k in m ==> m[k].LockHeight() < n
  }

  lemma {:induction false} StreamKeepsOutcomes(m: map<Bytes, HtlcRecord>, ops: seq<HtlcOp>, height: u64)
    requires AllOneOutcome(m) && OpsAt(ops, height)
    ensures AllOneOutcome(HtlcFold(m, ops))
    decreases |ops|
  {
    if ops != [] {
      assert ops[0].Lock? ==> FreshLock(ops[0].record, height);
      StreamKeepsOutcomes(HtlcStep(m, ops[0]), ops[1..], height);
    }
  }

  // One block over rows locked no higher.
  lemma BlockKeepsLifecycle(t: Tables, ev: BlockEvents)
    requires FreshLocks(ev) && AllOneOutcome(t.htlcs)
    ensures AllOneOutcome(ApplyData(t, ev).htlcs)
    ensures AllLifecycle(t.htlcs) && LockedBelow(t.htlcs, ev.height + 1) ==>
              AllLifecycle(ApplyData(t, ev).htlcs) && LockedBelow(ApplyData(t, ev).htlcs, ev.height + 1)
  {
    hide HtlcFold, HtlcOps, PutAll, FreshLocks, OpsAt, OneOutcome;
    OpsOfEvents(ev);
    StreamKeepsOutcomes(t.htlcs, HtlcOps(ev), ev.height);
    if AllLifecycle(t.htlcs) && LockedBelow(t.htlcs, ev.height + 1) {
      InOrderIsTimely(t.htlcs, HtlcOps(ev), ev.height);
      StreamKeepsLifecycle(t.htlcs, HtlcOps(ev));
    }
  }

  // In every run of blocks with fresh locks, rewinds, saves and restarts, in any order,
  // every row has one outcome at most.
  lemma {:induction false} OutcomeInvariant(s: Store, actions: seq<Action>)
    requires AllOneOutcome(s.data.htlcs)
    requires forall i :: 0 <= i < |actions| ==> actions[i].ApplyBlock? ==> FreshLocks(actions[i].ev)
    ensures AllOneOutcome(Run(s, actions).data.htlcs)
    decreases |actions|
  {
    hide ApplyData, FreshLocks, OneOutcome;
    if actions != [] {
      var next := Step(s, actions[0]);
      if actions[0].ApplyBlock? {
        BlockKeepsLifecycle(s.data, actions[0].ev);
      }
      OutcomeInvariant(next, actions[1..]);
    }
  }

  // No block is applied below a block that is still held: `n` is the number of heights held.
  ghost predicate InOrder(n: nat, actions: seq<Action>)
    decreases |actions|
  {
    actions != [] ==>
      match actions[0]
      case ApplyBlock(ev) => n <= ev.height + 1 && FreshLocks(ev) && InOrder(ev.height + 1, actions[1..])
      case WipeAbove(cut) => InOrder(if cut + 1 < n then cut + 1 else n, actions[1..])
      case _ => InOrder(n, actions[1..])
  }

  // In every run whose blocks come in order, rewinds included, moreover no row is settled
  // before it was locked.
  lemma {:induction false} LifecycleInvariant(s: Store, n: nat, actions: seq<Action>)
    requires AllLifecycle(s.data.htlcs) && LockedBelow(s.data.htlcs, n) && InOrder(n, actions)
    ensures AllLifecycle(Run(s, actions).data.htlcs)
    decreases |actions|
  {
    hide ApplyData, FreshLocks, Lifecycle;
    if actions != [] {
      var next := Step(s, actions[0]);
      match actions[0] {
        case ApplyBlock(ev) =>
          AllHaveOneOutcome(s.data.htlcs);
          BlockKeepsLifecycle(s.data, ev);
          LifecycleInvariant(next, ev.height + 1, actions[1..]);
        case WipeAbove(cut) =>
          LifecycleInvariant(next, if cut + 1 < n then cut + 1 else n, actions[1..]);
        case _ =>
          LifecycleInvariant(next, n, actions[1..]);
      }
    }
  }

  lemma AllHaveOneOutcome(m: map<Bytes, HtlcRecord>)
    requires AllLifecycle(m)
    ensures AllOneOutcome(m)
  {}

  // Once settled, a row changes only when its outpoint is locked again.
  lemma SettledIsFinal(t: Tables, bs: seq<BlockEvents>, k: Bytes)
    requires k in t.htlcs && t.htlcs[k].Settled()
    requires LastLock(bs, k).None?
    ensures k in WalkData(t, bs).htlcs && WalkData(t, bs).htlcs[k] == t.htlcs[k]
  {
    HtlcRefinement(t, bs, k);
  }

  // ---- Datum index ----------------------------------------------------------

  // What each outpoint carries, once and for all.
  ghost predicate Carries(ev: BlockEvents, carried: Bytes -> Option<QuoteId>) {
    forall i :: 0 <= i < |ev.outputDatums| ==>
      var od := ev.outputDatums[i];
      od.quoteId == carried(DatumKey(od)) && (od.quoteId.Some? <==> !od.unhonorable)
  }

  // The reverse index is exactly what the forward rows imply, and every forward row is
  // either honorable or flagged.
  ghost predicate DatumsAgree(t: Tables) {
    && (forall k :: k in t.datums ==> |k| == 36 && (t.datums[k].quoteId.Some? <==> !t.datums[k].unhonorable))
    && (forall k :: k in t.datums ==> ReverseKeys(k, t.datums[k]) <= t.quotes)
    && (forall q :: q in t.quotes ==> |q| == 52 && q[16..] in t.datums && q in ReverseKeys(q[16..], t.datums[q[16..]]))
  }

  ghost predicate RowsCarry(t: Tables, carried: Bytes -> Option<QuoteId>) {
    forall k :: k in t.datums ==> t.datums[k].quoteId == carried(k)
  }

  lemma ReverseKeysOfQuote(k: Bytes, d: OutputDatumRecord, d': OutputDatumRecord)
    requires d.quoteId == d'.quoteId
    ensures ReverseKeys(k, d) == ReverseKeys(k, d')
  {}

  predicate RowCarries(k: Bytes, d: OutputDatumRecord, carried: Bytes -> Option<QuoteId>) {
    |k| == 36 && d.quoteId == carried(k) && (d.quoteId.Some? <==> !d.unhonorable)
  }

  lemma ForwardRowsIndexed(m: map<Bytes, OutputDatumRecord>, puts: seq<Put<Bytes, OutputDatumRecord>>, quotes: set<Bytes>, k: Bytes)
    requires k in PutAll(m, puts)
    requires forall k :: k in m ==> ReverseKeys(k, m[k]) <= quotes
    ensures ReverseKeys(k, PutAll(m, puts)[k]) <= quotes + QuoteKeys(puts)
  {
    hide ReverseKeys;
    PutAllLast(m, puts, k);
  }

  lemma QuoteRowsBacked(m: map<Bytes, OutputDatumRecord>, puts: seq<Put<Bytes, OutputDatumRecord>>,
                        carried: Bytes -> Option<QuoteId>, q: Bytes)
    requires forall k :: k in m ==> RowCarries(k, m[k], carried)
    requires forall i :: 0 <= i < |puts| ==> RowCarries(puts[i].key, puts[i].value, carried)
    requires (|q| == 52 && q[16..] in m && q in ReverseKeys(q[16..], m[q[16..]])) || q in QuoteKeys(puts)
    ensures |q| == 52 && q[16..] in PutAll(m, puts) && q in ReverseKeys(q[16..], PutAll(m, puts)[q[16..]])
  {
    hide PrimaryKey, QuoteKey;
    var m' := PutAll(m, puts);
    PutAllOverlays(m, puts);
    PutAllKeeps(m, puts, (k, d) => RowCarries(k, d, carried));
    if q in QuoteKeys(puts) {
      var p :| p in puts && q in ReverseKeys(p.key, p.value);
      var i :| 0 <= i < |puts| && puts[i] == p;
      assert puts[i].key == p.key;
      ReverseKeysEndInOutpoint(p.key, p.value);
      ReverseKeysOfQuote(p.key, p.value, m'[p.key]);
    } else {
      ReverseKeysOfQuote(q[16..], m[q[16..]], m'[q[16..]]);
    }
  }

  lemma ApplyKeepsDatums(t: Tables, ev: BlockEvents, carried: Bytes -> Option<QuoteId>)
    requires DatumsAgree(t) && RowsCarry(t, carried) && Carries(ev, carried)
    ensures DatumsAgree(ApplyData(t, ev)) && RowsCarry(ApplyData(t, ev), carried)
  {
    hide PrimaryKey, QuoteKey, ReverseKeys, PutAll, HtlcFold, HtlcOps, SettlementPuts, ActivityPuts, SpentByPuts, BlockPuts;
    var t' := ApplyData(t, ev);
    var puts := DatumPuts(ev);
    assert forall k :: k in t.datums ==> RowCarries(k, t.datums[k], carried);
    assert forall i :: 0 <= i < |puts| ==> RowCarries(puts[i].key, puts[i].value, carried);
    PutAllKeeps(t.datums, puts, (k, d) => RowCarries(k, d, carried));
    assert forall k :: k in t'.datums ==> RowCarries(k, t'.datums[k], carried);
    forall k | k in t'.datums ensures ReverseKeys(k, t'.datums[k]) <= t'.quotes {
      ForwardRowsIndexed(t.datums, puts, t.quotes, k);
    }
    forall q | q in t'.quotes
      ensures |q| == 52 && q[16..] in t'.datums && q in ReverseKeys(q[16..], t'.datums[q[16..]])
    {
      QuoteRowsBacked(t.datums, puts, carried, q);
    }
  }

  lemma WipeKeepsDatums(t: Tables, cut: u64, carried: Bytes -> Option<QuoteId>)
    requires DatumsAgree(t) && RowsCarry(t, carried)
    ensures DatumsAgree(WipeData(t, cut)) && RowsCarry(WipeData(t, cut), carried)
  {
    hide PrimaryKey, QuoteKey;
    var t' := WipeData(t, cut);
    forall k | k in t'.datums ensures ReverseKeys(k, t'.datums[k]) <= t'.quotes {
      forall q | q in ReverseKeys(k, t.datums[k]) ensures q !in DroppedQuotes(t.datums, cut) {
        ReverseKeysEndInOutpoint(k, t.datums[k]);
        forall k' | k' in t.datums && q in ReverseKeys(k', t.datums[k']) ensures k' == k {
          ReverseKeysEndInOutpoint(k', t.datums[k']);
        }
      }
    }
    forall q | q in t'.quotes ensures q[16..] in t'.datums {
      assert q in ReverseKeys(q[16..], t.datums[q[16..]]);
    }
  }

  ghost predicate CarryingRun(actions: seq<Action>, carried: Bytes -> Option<QuoteId>) {
    forall i :: 0 <= i < |actions| ==> actions[i].ApplyBlock? ==> Carries(actions[i].ev, carried)
  }

  // In every state reached while outpoints keep their datum, the reverse index and the
  // forward rows agree.
  lemma {:induction false} DatumAgreement(s: Store, actions: seq<Action>, carried: Bytes -> Option<QuoteId>)
    requires DatumsAgree(s.data) && RowsCarry(s.data, carried) && CarryingRun(actions, carried)
    ensures DatumsAgree(Run(s, actions).data) && RowsCarry(Run(s, actions).data, carried)
    decreases |actions|
  {
    hide DatumsAgree, RowsCarry, Carries, ApplyData, WipeData;
    if actions != [] {
      match actions[0]
      case ApplyBlock(ev) =>
        ApplyKeepsDatums(s.data, ev, carried);
        DatumAgreement(Step(s, actions[0]), actions[1..], carried);
      case WipeAbove(cut) =>
        WipeKeepsDatums(s.data, cut, carried);
        DatumAgreement(Step(s, actions[0]), actions[1..], carried);
      case _ =>
        DatumAgreement(Step(s, actions[0]), actions[1..], carried);
    }
  }
}
