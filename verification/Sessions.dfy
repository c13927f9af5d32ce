/**
 Runs of the follower: ticks against any views of a growing chain, failures at any
 point, restarts, and forks of one block.
 */
module Sessions {
  import opened ByteStrings
  import opened Records
  import opened Folds
  import opened Tables
  import opened Database
  import opened Runs
  import opened Extract
  import opened Blocks
  import opened Following

  lemma {:induction false} FollowConcat(c: Crate, node: Node, t: Tables, from: nat, mid: nat, end: nat)
    requires from <= mid <= end <= |node.chain| <= U64_MAX
    ensures Follow(c, node, Follow(c, node, t, from, mid), mid, end) == Follow(c, node, t, from, end)
    decreases end
  {
    hide EventsOf, ApplyData;
    if mid != end {
      FollowConcat(c, node, t, from, mid, end - 1);
    }
  }

  // ---- Views of one chain -----------------------------------------------------------

  // Two nodes agree on the first `n` blocks and on every transaction both know.
  ghost predicate SameBelow(a: Node, b: Node, n: nat) {
    && n <= |a.chain| && n <= |b.chain|
    && (forall h :: 0 <= h < n ==> a.chain[h] == b.chain[h])
    && (forall id :: id in a.txs && id in b.txs ==> a.txs[id] == b.txs[id])
  }

  lemma SamePayments(c: Crate, a: Node, b: Node, tx: Tx, height: u64)
    requires InputsKnown(a, tx) && InputsKnown(b, tx)
    requires forall id :: id in a.txs && id in b.txs ==> a.txs[id] == b.txs[id]
    ensures TxActivity(c, a, tx, height) == TxActivity(c, b, tx, height)
  {
    hide Distinct, Attach, Extracted;
    var txId := Extracted(c, tx, height).txId;
    SameGather(Joined(tx), PaymentsAt(a, tx, txId), PaymentsAt(b, tx, txId));
  }

  lemma {:induction false} SameGather<T>(n: nat, f: nat -> seq<T>, g: nat -> seq<T>)
    requires forall i: nat :: i < n ==> f(i) == g(i)
    ensures Gather(n, f) == Gather(n, g)
  {
    if n > 0 {
      SameGather(n - 1, f, g);
    }
  }

  lemma {:induction false} SameFlat<A, B>(f: A -> seq<B>, g: A -> seq<B>, s: seq<A>)
    requires forall x :: x in s ==> f(x) == g(x)
    ensures Flat(f, s) == Flat(g, s)
  {
    if s != [] {
      SameFlat(f, g, s[1..]);
    }
  }

  // Every transaction of a fetchable block has a body in it.
  lemma BodiesFrom(node: Node, block: Block)
    requires Fetchable(node, block)
    ensures forall tx :: tx in Bodies(node, block.transactions) <==>
              exists i :: 0 <= i < |block.transactions| && tx == node.txs[block.transactions[i]].value
  {
    forall tx
      ensures tx in Bodies(node, block.transactions) <==>
        exists i :: 0 <= i < |block.transactions| && tx == node.txs[block.transactions[i]].value
    {
      FlatIn(BodyAt(node), block.transactions, tx);
      forall i | 0 <= i < |block.transactions|
        ensures tx in BodyAt(node)(block.transactions[i]) <==> tx == node.txs[block.transactions[i]].value
      {
      }
    }
  }

  lemma SameEvents(c: Crate, a: Node, b: Node, block: Block, height: u64, htlcs: map<Bytes, HtlcRecord>)
    requires Fetchable(a, block) && Fetchable(b, block)
    requires forall id :: id in a.txs && id in b.txs ==> a.txs[id] == b.txs[id]
    ensures EventsOf(c, a, block, height, htlcs, 0) == EventsOf(c, b, block, height, htlcs, 0)
  {
    hide TxActivity, InputsKnown;
    SameFlat(BodyAt(a), BodyAt(b), block.transactions);
    BodiesFrom(a, block);
    forall tx | tx in Bodies(a, block.transactions)
      ensures ActivityOf(c, a, height)(tx) == ActivityOf(c, b, height)(tx)
    {
      SamePayments(c, a, b, tx, height);
    }
    SameFlat(ActivityOf(c, a, height), ActivityOf(c, b, height), Bodies(a, block.transactions));
  }

  lemma {:induction false} SameFollow(c: Crate, a: Node, b: Node, t: Tables, from: nat, end: nat)
    requires |a.chain| <= U64_MAX && |b.chain| <= U64_MAX
    requires from <= end && SameBelow(a, b, end)
    requires FetchableRange(a, from, end) && FetchableRange(b, from, end)
    ensures Follow(c, a, t, from, end) == Follow(c, b, t, from, end)
    decreases end
  {
    hide EventsOf, ApplyData, Fetchable;
    if from != end {
      SameFollow(c, a, b, t, from, end - 1);
      var before := Follow(c, a, t, from, end - 1);
      SameEvents(c, a, b, a.chain[end - 1], end - 1, before.htlcs);
    }
  }

  // `view` is `node` as it was earlier, or as a lagging peer shows it.
  ghost predicate Views(view: Node, node: Node) {
    && 0 < |view.chain| <= |node.chain| && view.chain == node.chain[..|view.chain|]
    && (forall id :: id in view.txs ==> id in node.txs && view.txs[id] == node.txs[id])
  }

  lemma FetchableInView(view: Node, node: Node, from: nat, end: nat)
    requires Views(view, node) && end <= |view.chain| && FetchableRange(view, from, end)
    ensures FetchableRange(node, from, end)
  {
    forall h | from <= h < end ensures Fetchable(node, node.chain[h]) {
      assert Fetchable(view, view.chain[h]);
    }
  }

  // ---- In step -------------------------------------------------------------------------

  // The number of blocks a store claims to hold.
  function Indexed(s: Store): nat {
    match s.checkpoint
    case Stored(m) => StartHeight(m)
    case _ => 0
  }

  // The store is an uninterrupted walk of the node's first blocks over `base`, up to its
  // checkpoint. A new store walks from `EMPTY`, a migrated one from what it held before.
  ghost predicate InSync(c: Crate, node: Node, base: Tables, s: Store) {
    && SoundNode(node)
    && Current(s.checkpoint)
    && Indexed(s) <= |node.chain|
    && (Indexed(s) > 0 ==> s.checkpoint.meta.lastIndexedBlockId == node.chain[Indexed(s) - 1].id)
    && FetchableRange(node, 0, Indexed(s))
    && s.data == Follow(c, node, base, 0, Indexed(s))
  }

  lemma BlockIdsTellStart(node: Node, h: u64, m: FollowerMeta)
    requires SoundNode(node) && h < |node.chain|
    requires m.lastIndexedHeight == h && m.lastIndexedBlockId == node.chain[h].id
    ensures StartHeight(m) == h + 1
  {}

  // Walking on from a store in step keeps it in step, whichever view the blocks come from.
  lemma WalkedInSync(c: Crate, view: Node, node: Node, base: Tables, s: Store, from: nat, end: nat, startedAt: u64)
    requires SoundNode(node) && Views(view, node) && from <= end <= |view.chain|
    requires s.data == Follow(c, node, base, 0, from) && FetchableRange(node, 0, from)
    requires FetchableRange(view, from, end) && from < end
    ensures InSync(c, node, base, Walked(c, view, s, from, end, startedAt))
    ensures Indexed(Walked(c, view, s, from, end, startedAt)) == end
  {
    hide Follow, Fetchable;
    FetchableInView(view, node, from, end);
    assert SameBelow(view, node, end);
    SameFollow(c, view, node, s.data, from, end);
    FollowConcat(c, node, base, 0, from, end);
    BlockIdsTellStart(node, end - 1, Walked(c, view, s, from, end, startedAt).checkpoint.meta);
  }

  lemma WalkedNowhere(c: Crate, node: Node, s: Store, h: nat, startedAt: u64)
    requires h <= |node.chain| <= U64_MAX
    ensures Walked(c, node, s, h, h, startedAt) == s
  {}

  lemma CaughtInSync(c: Crate, view: Node, node: Node, base: Tables, m: FollowerMeta, s: Store, s': Store, done: bool)
    requires SoundNode(node) && Views(view, node)
    requires StartHeight(m) <= |view.chain| && m.schemaVersion >= SCHEMA_VERSION
    requires m.lastIndexedHeight < |view.chain|
    requires StartHeight(m) > 0 ==> m.lastIndexedBlockId == node.chain[m.lastIndexedHeight].id
    requires FetchableRange(node, 0, StartHeight(m)) && s.data == Follow(c, node, base, 0, StartHeight(m))
    requires InSync(c, node, base, s) && Indexed(s) == StartHeight(m)
    requires Caught(c, view, m, s, s', done)
    ensures InSync(c, node, base, s') && Indexed(s') >= Indexed(s)
    ensures done ==> Indexed(s') == |view.chain|
  {
    hide Follow, Fetchable;
    var from := StartHeight(m);
    if from < |view.chain| {
      var end :| && from <= end <= |view.chain| && (done ==> end == |view.chain|)
                && FetchableRange(view, from, end) && s' == Walked(c, view, s, from, end, m.startedAt);
      if from == end {
        WalkedNowhere(c, view, s, from, m.startedAt);
      } else {
        WalkedInSync(c, view, node, base, s, from, end, m.startedAt);
      }
    }
  }

  // A tick keeps a store in step and never goes back; when it reports success the store
  // holds everything the view shows.
  lemma TickKeepsSync(c: Crate, view: Node, node: Node, base: Tables, now: u64, s: Store, s': Store, done: bool)
    requires InSync(c, node, base, s) && Views(view, node) && Ticked(c, view, now, s, s', done)
    ensures InSync(c, node, base, s') && Indexed(s') >= Indexed(s)
    ensures done ==> Indexed(s') == |view.chain|
  {
    hide Caught, Follow, Fetchable, WipeData;
    var m := Started(s.checkpoint.meta, now);
    if m.lastIndexedHeight < |view.chain| {
      assert view.chain[m.lastIndexedHeight] == node.chain[m.lastIndexedHeight];
      CaughtInSync(c, view, node, base, m, s, s', done);
    }
  }

  // Opening a new store, or one written by an older release, starts a walk from genesis over
  // whatever the tables hold.
  lemma OpenedInSync(c: Crate, node: Node, t: Tables, before: Checkpoint)
    requires SoundNode(node) && !Current(before)
    ensures InSync(c, node, t, Store(t, Migrated(before))) && Indexed(Store(t, Migrated(before))) == 0
  {
    OpeningMigrates(before);
  }

  lemma ViewIsSound(c: Crate, view: Node, node: Node, base: Tables, s: Store)
    requires InSync(c, node, base, s) && Views(view, node)
    ensures SoundNode(view)
  {
    assert view.chain[0] == node.chain[0];
  }

  // ---- One block abandoned ----------------------------------------------------------------

  // The checkpoint names a block the node no longer has, and rewinding below it leaves a
  // straight walk of the blocks it does have.
  ghost predicate Crossed(c: Crate, node: Node, base: Tables, s: Store) {
    && SoundNode(node)
    && Current(s.checkpoint)
    && var m := s.checkpoint.meta;
       && 0 < m.lastIndexedHeight <= |node.chain|
       && (m.lastIndexedHeight < |node.chain| ==> node.chain[m.lastIndexedHeight].id != m.lastIndexedBlockId)
       && FetchableRange(node, 0, m.lastIndexedHeight)
       && WipeData(s.data, m.lastIndexedHeight - 1) == Follow(c, node, base, 0, m.lastIndexedHeight)
  }

  lemma KeepTwice<V>(m: map<Bytes, V>, height: (Bytes, V) -> nat, cut: nat)
    ensures Keep(Keep(m, height, cut), height, cut) == Keep(m, height, cut)
  {}

  lemma WipeTwice(t: Tables, cut: u64)
    ensures WipeData(WipeData(t, cut), cut) == WipeData(t, cut)
  {
    hide ReverseKeys;
    var once := WipeData(t, cut);
    assert DroppedQuotes(once.datums, cut) == {};
    hide Keep, DroppedQuotes;
    KeepTwice(t.htlcs, HtlcHeight, cut);
    KeepTwice(t.settlements, SettlementHeight, cut);
    KeepTwice(t.activity, ActivityHeight, cut);
    KeepTwice(t.spentBy, SpentByHeight, cut);
    KeepTwice(t.datums, DatumHeight, cut);
    KeepTwice(t.blocks, BlockHeight, cut);
  }

  lemma SteppedBackInSync(c: Crate, view: Node, node: Node, base: Tables, now: u64, s: Store)
    requires Crossed(c, node, base, s) && SoundNode(view) && Views(view, node)
    requires Diverged(view, Started(s.checkpoint.meta, now))
    ensures var m := Started(s.checkpoint.meta, now);
            var back := SteppedBack(view, m);
            && StartHeight(back) == m.lastIndexedHeight
            && InSync(c, node, base, Store(WipeData(s.data, m.lastIndexedHeight - 1), Stored(back)))
  {
    hide Follow, Fetchable, WipeData;
    var m := Started(s.checkpoint.meta, now);
    var h: u64 := m.lastIndexedHeight - 1;
    assert view.chain[h] == node.chain[h];
    BlockIdsTellStart(node, h, SteppedBack(view, m));
  }

  // A tick that finds its block abandoned ends in step with the new branch. Interrupted
  // between the rewind and the new checkpoint it is where it started, so the next one
  // repairs it; it never goes back by more than the one block.
  lemma TickRepairs(c: Crate, view: Node, node: Node, base: Tables, now: u64, s: Store, s': Store, done: bool)
    requires Crossed(c, node, base, s) && SoundNode(view) && Views(view, node) && Ticked(c, view, now, s, s', done)
    ensures (Crossed(c, node, base, s') && s'.checkpoint == s.checkpoint && !done)
            || (InSync(c, node, base, s') && Indexed(s') >= Indexed(s) - 1)
    ensures done ==> InSync(c, node, base, s') && Indexed(s') == |view.chain|
  {
    hide Caught, Follow, Fetchable, WipeData;
    var m := Started(s.checkpoint.meta, now);
    if m.lastIndexedHeight < |view.chain| {
      assert view.chain[m.lastIndexedHeight] == node.chain[m.lastIndexedHeight];
      assert Diverged(view, m);
      var cut: u64 := m.lastIndexedHeight - 1;
      var wiped := WipeData(s.data, cut);
      WipeTwice(s.data, cut);
      SteppedBackInSync(c, view, node, base, now, s);
      var back := SteppedBack(view, m);
      if Caught(c, view, back, Store(wiped, Stored(back)), s', done) {
        assert view.chain[cut] == node.chain[cut];
        CaughtInSync(c, view, node, base, back, Store(wiped, Stored(back)), s', done);
      }
    }
  }

  // ---- Whole runs ------------------------------------------------------------------------------

  // A tick, interrupted anywhere or not, against some view of the chain; or a restart.
  datatype Event = Ticks(view: Node, now: u64) | Restarts

  ghost predicate Moves(c: Crate, e: Event, s: Store, s': Store) {
    match e
    case Ticks(view, now) => SoundNode(view) && exists done :: Ticked(c, view, now, s, s', done)
    case Restarts => s' == Store(s.data, Migrated(s.checkpoint))
  }

  ghost predicate Session(c: Crate, node: Node, es: seq<Event>, ss: seq<Store>) {
    && |ss| == |es| + 1
    && (forall i :: 0 <= i < |es| ==> Moves(c, es[i], ss[i], ss[i + 1]))
    && (forall i :: 0 <= i < |es| ==> es[i].Ticks? ==> Views(es[i].view, node))
  }

  lemma StepKeepsSync(c: Crate, node: Node, base: Tables, e: Event, s: Store, s': Store)
    requires InSync(c, node, base, s) && Moves(c, e, s, s') && (e.Ticks? ==> Views(e.view, node))
    ensures InSync(c, node, base, s') && Indexed(s') >= Indexed(s)
  {
    hide Ticked, Follow, Fetchable;
    match e
    case Ticks(view, now) =>
      var done :| Ticked(c, view, now, s, s', done);
      TickKeepsSync(c, view, node, base, now, s, s', done);
    case Restarts =>
      OpeningMigrates(s.checkpoint);
  }

  lemma StepRepairs(c: Crate, node: Node, base: Tables, e: Event, s: Store, s': Store)
    requires Crossed(c, node, base, s) && Moves(c, e, s, s') && (e.Ticks? ==> Views(e.view, node))
    ensures (Crossed(c, node, base, s') && s'.checkpoint == s.checkpoint) || (InSync(c, node, base, s') && Indexed(s') >= Indexed(s) - 1)
  {
    hide Ticked, Follow, Fetchable;
    match e
    case Ticks(view, now) =>
      var done :| Ticked(c, view, now, s, s', done);
      TickRepairs(c, view, node, base, now, s, s', done);
    case Restarts =>
      OpeningMigrates(s.checkpoint);
  }

  // The follower under failure. However ticks fail, whichever views of the chain they see,
  // and whenever the process restarts: every store reached is a straight walk up to its
  // checkpoint, and the checkpoint never goes back.
  lemma {:induction false} WalkUnderFailure(c: Crate, node: Node, base: Tables, es: seq<Event>, ss: seq<Store>)
    requires Session(c, node, es, ss) && InSync(c, node, base, ss[0])
    ensures forall i :: 0 <= i < |ss| ==> InSync(c, node, base, ss[i])
    ensures forall i, j :: 0 <= i <= j < |ss| ==> Indexed(ss[i]) <= Indexed(ss[j])
  {
    hide InSync, Moves, Views, Indexed;
    if es != [] {
      var n := |es| - 1;
      WalkUnderFailure(c, node, base, es[..n], ss[..n + 1]);
      assert ss[..n + 1][n] == ss[n];
      StepKeepsSync(c, node, base, es[n], ss[n], ss[n + 1]);
      forall i | 0 <= i < n ensures InSync(c, node, base, ss[i]) && Indexed(ss[i]) <= Indexed(ss[n]) {
        assert ss[..n + 1][i] == ss[i];
      }
      forall i, j | 0 <= i <= j < n + 1 ensures Indexed(ss[i]) <= Indexed(ss[j]) {
        assert ss[..n + 1][i] == ss[i] && ss[..n + 1][j] == ss[j];
      }
    }
  }

  // After one block was abandoned: every store is still the one to be repaired or in step
  // with the new branch, and in step it stays.
  lemma {:induction false} RepairUnderFailure(c: Crate, node: Node, base: Tables, es: seq<Event>, ss: seq<Store>)
    requires Session(c, node, es, ss) && Crossed(c, node, base, ss[0])
    ensures forall i :: 0 <= i < |ss| ==>
              (Crossed(c, node, base, ss[i]) && ss[i].checkpoint == ss[0].checkpoint)
              || (InSync(c, node, base, ss[i]) && Indexed(ss[i]) >= Indexed(ss[0]) - 1)
    ensures forall i, j :: 0 <= i <= j < |ss| && InSync(c, node, base, ss[i]) ==> InSync(c, node, base, ss[j])
  {
    hide InSync, Crossed, Moves, Views;
    if es != [] {
      var n := |es| - 1;
      RepairUnderFailure(c, node, base, es[..n], ss[..n + 1]);
      assert ss[..n + 1][n] == ss[n] && ss[..n + 1][0] == ss[0];
      if InSync(c, node, base, ss[n]) {
        StepKeepsSync(c, node, base, es[n], ss[n], ss[n + 1]);
      } else {
        StepRepairs(c, node, base, es[n], ss[n], ss[n + 1]);
      }
      forall i | 0 <= i < n + 1
        ensures (Crossed(c, node, base, ss[i]) && ss[i].checkpoint == ss[0].checkpoint)
                || (InSync(c, node, base, ss[i]) && Indexed(ss[i]) >= Indexed(ss[0]) - 1)
        ensures InSync(c, node, base, ss[i]) ==> InSync(c, node, base, ss[n])
      {
        assert ss[..n + 1][i] == ss[i];
      }
      forall i, j | 0 <= i <= j < n + 1 && InSync(c, node, base, ss[i]) ensures InSync(c, node, base, ss[j]) {
        assert ss[..n + 1][i] == ss[i] && ss[..n + 1][j] == ss[j];
      }
    }
  }

  // A start time, once known, survives every tick, whatever the node shows.
  lemma StartTimeSurvives(c: Crate, node: Node, now: u64, s: Store, s': Store, done: bool)
    requires SoundNode(node) && Ticked(c, node, now, s, s', done)
    requires Loaded(s.checkpoint).Ok?
    ensures Loaded(s'.checkpoint).Ok?
    ensures var before, after := Loaded(s.checkpoint).value.startedAt, Loaded(s'.checkpoint).value.startedAt;
            (before != 0 ==> after == before) && (before == 0 ==> after == 0 || after == now)
  {
    hide Follow, FetchableRange, WipeData;
  }

  // The follower's run: ticks and restarts in any order.
  method Run(f: Follower, node: Node, ghost base: Tables, views: seq<Node>, clock: seq<u64>)
    requires f.db.Valid() && InSync(f.crate, node, base, f.db.Contents())
    requires |clock| == |views| && forall i :: 0 <= i < |views| ==> Views(views[i], node)
    modifies f.db
    ensures f.db.Valid() && InSync(f.crate, node, base, f.db.Contents())
    ensures Indexed(f.db.Contents()) >= old(Indexed(f.db.Contents()))
  {
    hide InSync, Indexed, Views, Ticked;
    for i := 0 to |views|
      invariant f.db.Valid() && InSync(f.crate, node, base, f.db.Contents())
      invariant Indexed(f.db.Contents()) >= old(Indexed(f.db.Contents()))
    {
      ghost var before := f.db.Contents();
      var crashed := f.Attempt();
      if crashed {
        f.db.Reopen();
        StepKeepsSync(f.crate, node, base, Restarts, before, f.db.Contents());
      } else {
        ViewIsSound(f.crate, views[i], node, base, before);
        var ok, _ := f.Tick(views[i], clock[i]);
        StepKeepsSync(f.crate, node, base, Ticks(views[i], clock[i]), before, f.db.Contents());
      }
    }
  }
}
