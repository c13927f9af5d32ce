/** The reorg rewind: what `wipe_above` undoes, and what it leaves behind. */
module Rewind {
  import opened ByteStrings
  import opened Records
  import opened Keys
  import opened Folds
  import opened Tables
  import opened Replay

  // ---- Chains ---------------------------------------------------------------

  // Events as extraction makes them: every row carries the height of its block,
  // and one outpoint does not carry two datums.
  ghost predicate WellFormed(b: BlockEvents) {
    && (forall r :: r in b.locks ==> r.lockBlockHeight == Some(b.height))
    && (forall s :: s in b.settlements ==> s.blockHeight == b.height)
    && (forall s :: s in b.spentBy ==> s.blockHeight == b.height)
    && (forall x, y :: x in b.outputDatums && y in b.outputDatums && DatumKey(x) == DatumKey(y) ==> x.quoteId == y.quoteId)
  }

  // No outpoint is created twice, and none is spent twice.
  ghost predicate NothingTwice(a: BlockEvents, b: BlockEvents) {
    && (forall x, y :: x in a.locks && y in b.locks ==> HtlcKey(x) != HtlcKey(y))
    && (forall x, y :: x in a.outputDatums && y in b.outputDatums ==> DatumKey(x) != DatumKey(y))
    && (forall x, y :: x in a.spentBy && y in b.spentBy ==> SpentByKey(x) != SpentByKey(y))
  }

  ghost predicate ValidChain(bs: seq<BlockEvents>) {
    && (forall i :: 0 <= i < |bs| ==> WellFormed(bs[i]))
    && (forall i, j :: 0 <= i < j < |bs| ==> bs[i].height < bs[j].height && NothingTwice(bs[i], bs[j]))
  }

  // `cut` separates the kept blocks from the abandoned ones.
  ghost predicate CutsAt(pre: seq<BlockEvents>, post: seq<BlockEvents>, cut: u64) {
    && (forall b :: b in pre ==> b.height <= cut)
    && (forall b :: b in post ==> b.height > cut)
  }

  // The number of leading blocks that a cut keeps.
  function KeptBy(bs: seq<BlockEvents>, cut: u64): (n: nat)
    ensures n <= |bs|
    ensures forall i :: 0 <= i < n ==> bs[i].height <= cut
    ensures n < |bs| ==> bs[n].height > cut
  {
    if bs == [] || bs[0].height > cut then 0 else 1 + KeptBy(bs[1..], cut)
  }

  // On a valid chain every cut splits the blocks into a kept prefix and an abandoned suffix.
  lemma EveryCutSplits(bs: seq<BlockEvents>, cut: u64)
    requires forall i, j :: 0 <= i < j < |bs| ==> bs[i].height < bs[j].height
    ensures CutsAt(bs[..KeptBy(bs, cut)], bs[KeptBy(bs, cut)..], cut)
  {
    var n := KeptBy(bs, cut);
    forall b | b in bs[n..] ensures b.height > cut {
      var j :| 0 <= j < |bs[n..]| && bs[n..][j] == b;
      assert bs[n + j] == b;
      assert j > 0 ==> bs[n].height < bs[n + j].height;
    }
  }

  ghost predicate Apart(pre: seq<BlockEvents>, post: seq<BlockEvents>) {
    forall a, b :: a in pre && b in post ==> NothingTwice(a, b)
  }

  ghost predicate AllWellFormed(bs: seq<BlockEvents>) {
    forall b :: b in bs ==> WellFormed(b)
  }

  lemma SplitIsApart(pre: seq<BlockEvents>, post: seq<BlockEvents>)
    requires ValidChain(pre + post)
    ensures Apart(pre, post) && AllWellFormed(pre) && AllWellFormed(post)
  {
    var bs := pre + post;
    forall a, b | a in pre && b in post ensures NothingTwice(a, b) {
      var i :| 0 <= i < |pre| && pre[i] == a;
      var j :| 0 <= j < |post| && post[j] == b;
      assert bs[i] == a && bs[|pre| + j] == b;
    }
    forall b | b in pre || b in post ensures WellFormed(b) {
      assert b in bs;
      var i :| 0 <= i < |bs| && bs[i] == b;
    }
  }

  // What a rewind keeps, row by row: a row is kept exactly when the height it was made at is
  // not above the cut, and an HTLC without a lock height only by a cut at the end of time.
  lemma WipeMeans(t: Tables, cut: u64, k: Bytes)
    requires Shaped(t)
    ensures var w := WipeData(t, cut);
            && (k in w.htlcs <==> k in t.htlcs && match t.htlcs[k].lockBlockHeight
                                                  case Some(h) => h <= cut
                                                  case None => cut == 0xFFFF_FFFF_FFFF_FFFF)
            && (k in w.settlements <==> k in t.settlements && t.settlements[k].blockHeight <= cut)
            && (k in w.activity <==> k in t.activity && FromBE(k[32..40]) <= cut)
            && (k in w.spentBy <==> k in t.spentBy && t.spentBy[k].blockHeight <= cut)
            && (k in w.datums <==> k in t.datums && t.datums[k].blockHeight <= cut)
            && (k in w.blocks <==> k in t.blocks && FromBE(k) <= cut)
            && (k in w.htlcs ==> w.htlcs[k] == t.htlcs[k]) && (k in w.settlements ==> w.settlements[k] == t.settlements[k])
            && (k in w.activity ==> w.activity[k] == t.activity[k]) && (k in w.spentBy ==> w.spentBy[k] == t.spentBy[k])
            && (k in w.datums ==> w.datums[k] == t.datums[k]) && (k in w.blocks ==> w.blocks[k] == t.blocks[k])
  {
    hide DroppedQuotes, FromBE, HtlcKey, SpentByKey;
    if k in t.settlements {
      assert FromBE(ContractKey(t.settlements[k])[64..72]) == t.settlements[k].blockHeight;
    }
    if k in t.blocks {
      assert k[0..8] == k;
    }
  }

  // ---- Streams of a split chain ---------------------------------------------

  ghost predicate AtHeight<V>(ps: seq<Put<Bytes, V>>, height: (Bytes, V) -> nat, low: int, high: int) {
    forall i :: 0 <= i < |ps| ==> low <= height(ps[i].key, ps[i].value) <= high
  }

  ghost predicate KeysApart<V>(ps: seq<Put<Bytes, V>>, qs: seq<Put<Bytes, V>>) {
    forall i, j :: 0 <= i < |ps| && 0 <= j < |qs| ==> ps[i].key != qs[j].key
  }

  lemma {:induction false} FlatAtHeight<V>(f: BlockEvents -> seq<Put<Bytes, V>>, bs: seq<BlockEvents>,
                                           height: (Bytes, V) -> nat, low: int, high: int)
    requires forall b :: b in bs ==> AtHeight(f(b), height, low, high)
    ensures AtHeight(Flat(f, bs), height, low, high)
  {
    if bs != [] {
      FlatAtHeight(f, bs[1..], height, low, high);
    }
  }

  lemma {:induction false} FlatApartOne<V>(ps: seq<Put<Bytes, V>>, f: BlockEvents -> seq<Put<Bytes, V>>, post: seq<BlockEvents>)
    requires forall b :: b in post ==> KeysApart(ps, f(b))
    ensures KeysApart(ps, Flat(f, post))
  {
    if post != [] {
      FlatApartOne(ps, f, post[1..]);
      assert KeysApart(ps, f(post[0]));
    }
  }

  lemma {:induction false} FlatApart<V>(f: BlockEvents -> seq<Put<Bytes, V>>, pre: seq<BlockEvents>, post: seq<BlockEvents>)
    requires forall a, b :: a in pre && b in post ==> KeysApart(f(a), f(b))
    ensures KeysApart(Flat(f, pre), Flat(f, post))
  {
    if pre != [] {
      FlatApart(f, pre[1..], post);
      FlatApartOne(f(pre[0]), f, post);
    }
  }

  // One row after the abandoned insertions are wiped by height.
  lemma CutRow<V>(ps: seq<Put<Bytes, V>>, qs: seq<Put<Bytes, V>>, height: (Bytes, V) -> nat, cut: nat, k: Bytes)
    requires AtHeight(ps, height, 0, cut)
    requires forall i :: 0 <= i < |qs| ==> height(qs[i].key, qs[i].value) > cut
    requires KeysApart(ps, qs)
    ensures Get(Keep(PutAll(PutAll(map[], ps), qs), height, cut), k) == Get(PutAll(map[], ps), k)
  {
    var empty: map<Bytes, V> := map[];
    var kept := PutAll(empty, ps);
    var full := PutAll(kept, qs);
    if k in kept {
      PutAllLast(empty, ps, k);
      PutAllOverlays(kept, qs);
    }
    if k in full {
      PutAllLast(kept, qs, k);
    }
  }

  // Wiping by height leaves the kept insertions of a table.
  lemma CutStream<V>(f: BlockEvents -> seq<Put<Bytes, V>>, pre: seq<BlockEvents>, post: seq<BlockEvents>,
                     height: (Bytes, V) -> nat, cut: u64)
    requires CutsAt(pre, post, cut)
    requires forall b :: b in pre || b in post ==> AtHeight(f(b), height, b.height, b.height)
    requires forall a, b :: a in pre && b in post ==> KeysApart(f(a), f(b))
    ensures Keep(PutAll(map[], Flat(f, pre + post)), height, cut) == PutAll(map[], Flat(f, pre))
  {
    var ps, qs := Flat(f, pre), Flat(f, post);
    var empty: map<Bytes, V> := map[];
    FlatConcat(f, pre, post);
    PutAllConcat(empty, ps, qs);
    FlatAtHeight(f, pre, height, 0, cut);
    FlatAtHeight(f, post, height, cut + 1, U64_MAX);
    FlatApart(f, pre, post);
    forall k ensures Get(Keep(PutAll(PutAll(empty, ps), qs), height, cut), k) == Get(PutAll(empty, ps), k) {
      CutRow(ps, qs, height, cut, k);
    }
    MapsEqual(Keep(PutAll(PutAll(empty, ps), qs), height, cut), PutAll(empty, ps));
  }

  // ---- Table by table -------------------------------------------------------

  // Tables whose key carries the height: rows of two blocks cannot meet.
  lemma KeyedByHeight<V>(ps: seq<Put<Bytes, V>>, qs: seq<Put<Bytes, V>>, height: (Bytes, V) -> nat, h: nat, h': nat)
    requires AtHeight(ps, height, h, h) && AtHeight(qs, height, h', h') && h < h'
    requires forall k: Bytes, v, v' :: height(k, v) == height(k, v')
    ensures KeysApart(ps, qs)
  {
    forall i, j | 0 <= i < |ps| && 0 <= j < |qs| ensures ps[i].key != qs[j].key {
      assert height(ps[i].key, ps[i].value) != height(qs[j].key, qs[j].value);
    }
  }

  lemma SettlementHeights(b: BlockEvents)
    requires WellFormed(b)
    ensures AtHeight(SettlementPuts(b), SettlementHeight, b.height, b.height)
  {
    forall i | 0 <= i < |b.settlements| ensures KeyHeight(SettlementPuts(b)[i].key, 64) == b.height {
      assert b.settlements[i] in b.settlements;
    }
  }

  lemma SettlementsCut(pre: seq<BlockEvents>, post: seq<BlockEvents>, cut: u64)
    requires AllWellFormed(pre) && AllWellFormed(post) && CutsAt(pre, post, cut)
    ensures Keep(PutAll(map[], Flat(SettlementPuts, pre + post)), SettlementHeight, cut) == PutAll(map[], Flat(SettlementPuts, pre))
  {
    forall b | b in pre || b in post { SettlementHeights(b); }
    forall a, b | a in pre && b in post { KeyedByHeight(SettlementPuts(a), SettlementPuts(b), SettlementHeight, a.height, b.height); }
    CutStream(SettlementPuts, pre, post, SettlementHeight, cut);
  }

  lemma ActivityHeights(b: BlockEvents)
    ensures AtHeight(ActivityPuts(b), ActivityHeight, b.height, b.height)
  {}

  lemma ActivityCut(pre: seq<BlockEvents>, post: seq<BlockEvents>, cut: u64)
    requires CutsAt(pre, post, cut)
    ensures Keep(PutAll(map[], Flat(ActivityPuts, pre + post)), ActivityHeight, cut) == PutAll(map[], Flat(ActivityPuts, pre))
  {
    forall b | b in pre || b in post { ActivityHeights(b); }
    forall a, b | a in pre && b in post { KeyedByHeight(ActivityPuts(a), ActivityPuts(b), ActivityHeight, a.height, b.height); }
    CutStream(ActivityPuts, pre, post, ActivityHeight, cut);
  }

  lemma BlockHeights(b: BlockEvents)
    ensures AtHeight(BlockPuts(b), BlockHeight, b.height, b.height)
  {
    assert BlockKey(b.height)[0..8] == BlockKey(b.height);
  }

  lemma BlocksCut(pre: seq<BlockEvents>, post: seq<BlockEvents>, cut: u64)
    requires CutsAt(pre, post, cut)
    ensures Keep(PutAll(map[], Flat(BlockPuts, pre + post)), BlockHeight, cut) == PutAll(map[], Flat(BlockPuts, pre))
  {
    forall b | b in pre || b in post { BlockHeights(b); }
    forall a, b | a in pre && b in post { KeyedByHeight(BlockPuts(a), BlockPuts(b), BlockHeight, a.height, b.height); }
    CutStream(BlockPuts, pre, post, BlockHeight, cut);
  }

  lemma SpentByHeights(b: BlockEvents)
    requires WellFormed(b)
    ensures AtHeight(SpentByPuts(b), SpentByHeight, b.height, b.height)
  {
    forall i | 0 <= i < |b.spentBy| ensures SpentByPuts(b)[i].value.blockHeight == b.height {
      assert b.spentBy[i] in b.spentBy;
    }
  }

  lemma SpentByApart(a: BlockEvents, b: BlockEvents)
    requires NothingTwice(a, b)
    ensures KeysApart(SpentByPuts(a), SpentByPuts(b))
  {
    forall i, j | 0 <= i < |a.spentBy| && 0 <= j < |b.spentBy| ensures SpentByPuts(a)[i].key != SpentByPuts(b)[j].key {
      assert a.spentBy[i] in a.spentBy && b.spentBy[j] in b.spentBy;
    }
  }

  lemma SpentByCut(pre: seq<BlockEvents>, post: seq<BlockEvents>, cut: u64)
    requires AllWellFormed(pre) && AllWellFormed(post) && Apart(pre, post) && CutsAt(pre, post, cut)
    ensures Keep(PutAll(map[], Flat(SpentByPuts, pre + post)), SpentByHeight, cut) == PutAll(map[], Flat(SpentByPuts, pre))
  {
    forall b | b in pre || b in post { SpentByHeights(b); }
    forall a, b | a in pre && b in post { SpentByApart(a, b); }
    CutStream(SpentByPuts, pre, post, SpentByHeight, cut);
  }

  lemma DatumHeights(b: BlockEvents)
    ensures AtHeight(DatumPuts(b), DatumHeight, b.height, b.height)
  {}

  lemma DatumsApart(a: BlockEvents, b: BlockEvents)
    requires NothingTwice(a, b)
    ensures KeysApart(DatumPuts(a), DatumPuts(b))
  {
    forall i, j | 0 <= i < |a.outputDatums| && 0 <= j < |b.outputDatums| ensures DatumPuts(a)[i].key != DatumPuts(b)[j].key {
      assert a.outputDatums[i] in a.outputDatums && b.outputDatums[j] in b.outputDatums;
    }
  }

  lemma DatumsCut(pre: seq<BlockEvents>, post: seq<BlockEvents>, cut: u64)
    requires Apart(pre, post) && CutsAt(pre, post, cut)
    ensures Keep(PutAll(map[], Flat(DatumPuts, pre + post)), DatumHeight, cut) == PutAll(map[], Flat(DatumPuts, pre))
  {
    forall b | b in pre || b in post { DatumHeights(b); }
    forall a, b | a in pre && b in post { DatumsApart(a, b); }
    CutStream(DatumPuts, pre, post, DatumHeight, cut);
  }

  lemma ReverseKeysEndInOutpoint(k: Bytes, d: OutputDatumRecord)
    ensures forall q :: q in ReverseKeys(k, d) ==> |q| == 52 && q[16..] == k
  {
    if |k| == 36 && d.quoteId.Some? {
      Widths();
      FromBERoundTrip(k[32..]);
      assert k == k[..32] + k[32..];
    }
  }

  // One outpoint, one quote.
  ghost predicate OneQuoteEach(ps: seq<Put<Bytes, OutputDatumRecord>>) {
    forall i, j :: 0 <= i < |ps| && 0 <= j < |ps| && ps[i].key == ps[j].key ==> ps[i].value.quoteId == ps[j].value.quoteId
  }

  // The reverse rows wiped are exactly those the abandoned insertions added.
  lemma DroppedAreAbandoned(ps: seq<Put<Bytes, OutputDatumRecord>>, qs: seq<Put<Bytes, OutputDatumRecord>>, cut: nat)
    requires AtHeight(ps, DatumHeight, 0, cut)
    requires forall i :: 0 <= i < |qs| ==> DatumHeight(qs[i].key, qs[i].value) > cut
    requires OneQuoteEach(qs)
    ensures DroppedQuotes(PutAll(PutAll(map[], ps), qs), cut) == QuoteKeys(qs)
  {
    var empty: map<Bytes, OutputDatumRecord> := map[];
    var kept := PutAll(empty, ps);
    var m := PutAll(kept, qs);
    forall k | k in m && m[k].blockHeight > cut ensures ReverseKeys(k, m[k]) <= QuoteKeys(qs) {
      PutAllLast(kept, qs, k);
      if k in kept {
        PutAllLast(empty, ps, k);
      }
    }
    forall i | 0 <= i < |qs| ensures ReverseKeys(qs[i].key, qs[i].value) <= DroppedQuotes(m, cut) {
      var k := qs[i].key;
      PutAllOverlays(kept, qs);
      PutAllOverlays(empty, qs);
      PutAllLast(kept, qs, k);
      assert m[k].quoteId == qs[i].value.quoteId && m[k].blockHeight > cut;
      assert ReverseKeys(k, m[k]) == ReverseKeys(qs[i].key, qs[i].value);
    }
    forall q | q in QuoteKeys(qs) ensures q in DroppedQuotes(m, cut) {
      var p :| p in qs && q in ReverseKeys(p.key, p.value);
      var i :| 0 <= i < |qs| && qs[i] == p;
      assert ReverseKeys(qs[i].key, qs[i].value) <= DroppedQuotes(m, cut);
    }
  }

  lemma QuotesOfApartKeys(ps: seq<Put<Bytes, OutputDatumRecord>>, qs: seq<Put<Bytes, OutputDatumRecord>>)
    requires KeysApart(ps, qs)
    ensures QuoteKeys(ps + qs) - QuoteKeys(qs) == QuoteKeys(ps)
  {
    forall p, p' | p in ps && p' in qs ensures p.key != p'.key {
      var i :| 0 <= i < |ps| && ps[i] == p;
      var j :| 0 <= j < |qs| && qs[j] == p';
    }
    forall q | q in QuoteKeys(ps) ensures q !in QuoteKeys(qs) {
      var p :| p in ps && q in ReverseKeys(p.key, p.value);
      ReverseKeysEndInOutpoint(p.key, p.value);
      forall p' | p' in qs ensures q !in ReverseKeys(p'.key, p'.value) {
        ReverseKeysEndInOutpoint(p'.key, p'.value);
      }
    }
  }

  lemma BlockOneQuoteEach(b: BlockEvents)
    requires WellFormed(b)
    ensures OneQuoteEach(DatumPuts(b))
  {
    forall i, j | 0 <= i < |b.outputDatums| && 0 <= j < |b.outputDatums| && DatumPuts(b)[i].key == DatumPuts(b)[j].key
      ensures b.outputDatums[i].quoteId == b.outputDatums[j].quoteId
    {
      assert b.outputDatums[i] in b.outputDatums && b.outputDatums[j] in b.outputDatums;
    }
  }

  lemma {:induction false} ChainOneQuoteEach(bs: seq<BlockEvents>)
    requires AllWellFormed(bs)
    requires forall i, j :: 0 <= i < j < |bs| ==> NothingTwice(bs[i], bs[j])
    ensures OneQuoteEach(Flat(DatumPuts, bs))
  {
    if bs != [] {
      var b, rest := bs[0], bs[1..];
      ChainOneQuoteEach(rest);
      BlockOneQuoteEach(b);
      forall c | c in rest ensures KeysApart(DatumPuts(b), DatumPuts(c)) {
        var j :| 0 <= j < |rest| && rest[j] == c;
        assert bs[j + 1] == c;
        DatumsApart(bs[0], bs[j + 1]);
      }
      FlatApartOne(DatumPuts(b), DatumPuts, rest);
    }
  }

  lemma DatumStreams(pre: seq<BlockEvents>, post: seq<BlockEvents>, cut: u64)
    requires Apart(pre, post) && CutsAt(pre, post, cut)
    ensures AtHeight(Flat(DatumPuts, pre), DatumHeight, 0, cut)
    ensures AtHeight(Flat(DatumPuts, post), DatumHeight, cut + 1, U64_MAX)
    ensures KeysApart(Flat(DatumPuts, pre), Flat(DatumPuts, post))
  {
    forall b | b in pre || b in post { DatumHeights(b); }
    FlatAtHeight(DatumPuts, pre, DatumHeight, 0, cut);
    FlatAtHeight(DatumPuts, post, DatumHeight, cut + 1, U64_MAX);
    forall a, b | a in pre && b in post { DatumsApart(a, b); }
    FlatApart(DatumPuts, pre, post);
  }

  lemma QuoteStreamsCut(ps: seq<Put<Bytes, OutputDatumRecord>>, qs: seq<Put<Bytes, OutputDatumRecord>>, cut: nat, top: nat)
    requires AtHeight(ps, DatumHeight, 0, cut) && AtHeight(qs, DatumHeight, cut + 1, top)
    requires KeysApart(ps, qs) && OneQuoteEach(qs)
    ensures QuoteKeys(ps + qs) - DroppedQuotes(PutAll(map[], ps + qs), cut) == QuoteKeys(ps)
  {
    PutAllConcat(map[], ps, qs);
    DroppedAreAbandoned(ps, qs, cut);
    QuotesOfApartKeys(ps, qs);
  }

  lemma QuotesCut(pre: seq<BlockEvents>, post: seq<BlockEvents>, cut: u64)
    requires Apart(pre, post) && CutsAt(pre, post, cut)
    requires OneQuoteEach(Flat(DatumPuts, post))
    ensures QuoteKeys(Flat(DatumPuts, pre + post)) - DroppedQuotes(PutAll(map[], Flat(DatumPuts, pre + post)), cut)
            == QuoteKeys(Flat(DatumPuts, pre))
  {
    FlatConcat(DatumPuts, pre, post);
    DatumStreams(pre, post, cut);
    QuoteStreamsCut(Flat(DatumPuts, pre), Flat(DatumPuts, post), cut, U64_MAX);
  }

  // Everything but the HTLC rows.
  lemma PlainTablesCut(pre: seq<BlockEvents>, post: seq<BlockEvents>, cut: u64)
    requires AllWellFormed(pre) && AllWellFormed(post) && Apart(pre, post) && CutsAt(pre, post, cut)
    requires OneQuoteEach(Flat(DatumPuts, post))
    ensures var wiped := WipeData(WalkData(EMPTY, pre + post), cut);
            wiped == WalkData(EMPTY, pre).(htlcs := wiped.htlcs)
  {
    WalkStreams(EMPTY, pre + post);
    WalkStreams(EMPTY, pre);
    SettlementsCut(pre, post, cut);
    ActivityCut(pre, post, cut);
    BlocksCut(pre, post, cut);
    SpentByCut(pre, post, cut);
    DatumsCut(pre, post, cut);
    QuotesCut(pre, post, cut);
  }

  // ---- HTLC rows ------------------------------------------------------------

  // A spend changes the outcome of a record, not its identity, parties or lock.
  lemma AdvanceKeepsLock(r: HtlcRecord, spend: Option<HtlcOp>)
    ensures var r' := AdvanceBy(r, spend);
            r' == r.(state := r'.state, claim := r'.claim, reclaim := r'.reclaim, lastIndexedHeight := r'.lastIndexedHeight)
    ensures spend.Some? && spend.value.Spend? && !r.Settled() ==> AdvanceBy(r, spend).Settled()
  {}

  // So it stays where it is in every index but the one by state.
  lemma AdvanceKeepsPlace(r: HtlcRecord, spend: Option<HtlcOp>)
    ensures var r' := AdvanceBy(r, spend);
            && HtlcKey(r') == HtlcKey(r) && SenderKey(r') == SenderKey(r) && ReceiverKey(r') == ReceiverKey(r)
            && RecordHashlockKey(r') == RecordHashlockKey(r)
  {
    var r' := AdvanceBy(r, spend);
    AdvanceKeepsLock(r, spend);
    assert r'.lockTxId == r.lockTxId && r'.outputIndex == r.outputIndex && r'.params == r.params;
    assert r'.LockHeight() == r.LockHeight();
  }

  lemma {:induction false} LastLockMeans(bs: seq<BlockEvents>, k: Bytes)
    ensures LastLock(bs, k).Some? ==>
              var l := LastLock(bs, k).value; bs[l.block] in bs && l.record in bs[l.block].locks && HtlcKey(l.record) == k
    ensures LastLock(bs, k).None? ==> forall b :: b in bs ==> LastLockIn(b.locks, k).None?
  {
    if bs != [] {
      var n := |bs| - 1;
      LastLockInMeans(bs[n].locks, k);
      LastLockMeans(bs[..n], k);
      assert bs == bs[..n] + [bs[n]];
    }
  }

  // On well-formed blocks the last lock of an outpoint carries the height of its block.
  lemma LastLockHeight(bs: seq<BlockEvents>, k: Bytes)
    requires AllWellFormed(bs) && LastLock(bs, k).Some?
    ensures var l := LastLock(bs, k).value; bs[l.block] in bs && l.record.LockHeight() == bs[l.block].height
  {
    LastLockMeans(bs, k);
    var l := LastLock(bs, k).value;
    assert WellFormed(bs[l.block]);
  }

  lemma LocksApart(a: BlockEvents, b: BlockEvents, x: HtlcRecord, y: HtlcRecord)
    requires NothingTwice(a, b) && x in a.locks && y in b.locks
    ensures HtlcKey(x) != HtlcKey(y)
  {}

  lemma LockedOnOneSide(pre: seq<BlockEvents>, post: seq<BlockEvents>, k: Bytes)
    requires Apart(pre, post)
    ensures LastLock(pre, k).None? || LastLock(post, k).None?
  {
    if LastLock(pre, k).Some? && LastLock(post, k).Some? {
      LastLockMeans(pre, k);
      LastLockMeans(post, k);
      LocksApart(pre[LastLock(pre, k).value.block], post[LastLock(post, k).value.block],
                 LastLock(pre, k).value.record, LastLock(post, k).value.record);
    }
  }

  // The row of one outpoint after the rewind: the row of the straight walk, still advanced
  // by a spend that was abandoned with its block.
  lemma HtlcCut(pre: seq<BlockEvents>, post: seq<BlockEvents>, cut: u64, k: Bytes)
    requires AllWellFormed(pre) && AllWellFormed(post) && Apart(pre, post) && CutsAt(pre, post, cut)
    ensures var straight := WalkData(EMPTY, pre).htlcs;
            Get(Keep(WalkData(EMPTY, pre + post).htlcs, HtlcHeight, cut), k) ==
            if k in straight then Some(AdvanceBy(straight[k], FirstSpend(Flat(SpendOps, post), k))) else None
  {
    hide WalkData, LastLock, FirstSpend, Flat, HtlcKey;
    var straight := WalkData(EMPTY, pre);
    WalkConcat(EMPTY, pre, post);
    HtlcRefinement(straight, post, k);
    HtlcRefinement(EMPTY, pre, k);
    LockedOnOneSide(pre, post, k);
    if LastLock(post, k).Some? {
      var l := LastLock(post, k).value;
      LastLockHeight(post, k);
      AdvanceKeepsLock(l.record, FirstSpend(Flat(SpendOps, post[l.block..]), k));
    } else if LastLock(pre, k).Some? {
      var l := LastLock(pre, k).value;
      LastLockHeight(pre, k);
      AdvanceKeepsLock(l.record, FirstSpend(Flat(SpendOps, pre[l.block..]), k));
      AdvanceKeepsLock(straight.htlcs[k], FirstSpend(Flat(SpendOps, post), k));
    }
  }

  // An HTLC open at the cut whose settlement lies above it.
  ghost predicate Stuck(pre: seq<BlockEvents>, post: seq<BlockEvents>, k: Bytes) {
    var open := WalkData(EMPTY, pre).htlcs;
    k in open && !open[k].Settled() && FirstSpend(Flat(SpendOps, post), k).Some?
  }

  lemma StuckDiffers(pre: seq<BlockEvents>, post: seq<BlockEvents>, k: Bytes)
    requires k in WalkData(EMPTY, pre).htlcs
    ensures var r := WalkData(EMPTY, pre).htlcs[k];
            AdvanceBy(r, FirstSpend(Flat(SpendOps, post), k)) != r <==> Stuck(pre, post, k)
  {
    FirstSpendIsSpend(Flat(SpendOps, post), k);
    AdvanceKeepsLock(WalkData(EMPTY, pre).htlcs[k], FirstSpend(Flat(SpendOps, post), k));
  }

  lemma ChainFacts(pre: seq<BlockEvents>, post: seq<BlockEvents>)
    requires ValidChain(pre + post)
    ensures AllWellFormed(pre) && AllWellFormed(post) && Apart(pre, post)
    ensures OneQuoteEach(Flat(DatumPuts, post))
  {
    SplitIsApart(pre, post);
    forall i, j | 0 <= i < j < |post| ensures NothingTwice(post[i], post[j]) {
      assert NothingTwice((pre + post)[|pre| + i], (pre + post)[|pre| + j]);
    }
    ChainOneQuoteEach(post);
  }

  lemma RewindRow(pre: seq<BlockEvents>, post: seq<BlockEvents>, cut: u64, k: Bytes)
    requires AllWellFormed(pre) && AllWellFormed(post) && Apart(pre, post) && CutsAt(pre, post, cut)
    ensures var wiped, straight := WipeData(WalkData(EMPTY, pre + post), cut).htlcs, WalkData(EMPTY, pre).htlcs;
            && (k in wiped <==> k in straight)
            && (k in straight ==> wiped[k] == AdvanceBy(straight[k], FirstSpend(Flat(SpendOps, post), k)))
            && (k in straight ==> (wiped[k] != straight[k] <==> Stuck(pre, post, k)))
  {
    HtlcCut(pre, post, cut, k);
    if k in WalkData(EMPTY, pre).htlcs {
      StuckDiffers(pre, post, k);
    }
  }

  lemma DifferOnlyWhere<V>(m: map<Bytes, V>, m': map<Bytes, V>, differs: Bytes -> bool)
    requires forall k :: k in m <==> k in m'
    requires forall k :: k in m' ==> (m[k] != m'[k] <==> differs(k))
    requires forall k :: differs(k) ==> k in m'
    ensures m.Keys == m'.Keys
    ensures m == m' <==> forall k :: !differs(k)
  {}

  // The rewind theorem. Every table but the HTLC rows is that of a walk that stopped at the
  // cut; so are the HTLC rows, except the stuck ones, which keep their abandoned settlement.
  lemma RewindTheorem(pre: seq<BlockEvents>, post: seq<BlockEvents>, cut: u64)
    requires ValidChain(pre + post) && CutsAt(pre, post, cut)
    ensures var wiped, straight := WipeData(WalkData(EMPTY, pre + post), cut), WalkData(EMPTY, pre);
            && wiped == straight.(htlcs := wiped.htlcs)
            && wiped.htlcs.Keys == straight.htlcs.Keys
            && (forall k :: k in straight.htlcs ==>
                  wiped.htlcs[k] == AdvanceBy(straight.htlcs[k], FirstSpend(Flat(SpendOps, post), k)))
            && (wiped == straight <==> forall k :: !Stuck(pre, post, k))
  {
    ChainFacts(pre, post);
    PlainTablesCut(pre, post, cut);
    var wiped, straight := WipeData(WalkData(EMPTY, pre + post), cut).htlcs, WalkData(EMPTY, pre).htlcs;
    forall k
      ensures k in wiped <==> k in straight
      ensures k in straight ==> wiped[k] == AdvanceBy(straight[k], FirstSpend(Flat(SpendOps, post), k))
      ensures k in straight ==> (wiped[k] != straight[k] <==> Stuck(pre, post, k))
    {
      RewindRow(pre, post, cut, k);
    }
    DifferOnlyWhere(wiped, straight, k => Stuck(pre, post, k));
  }

  // ---- Switching branches ---------------------------------------------------

  // The new branch repairs a stuck row only by locking the outpoint again or by settling it
  // in the same way at the same height.
  ghost predicate Repaired(a: seq<BlockEvents>, b: seq<BlockEvents>, k: Bytes) {
    LastLock(b, k).Some? || FirstSpend(Flat(SpendOps, b), k) == FirstSpend(Flat(SpendOps, a), k)
  }

  lemma AdvanceTells(r: HtlcRecord, x: Option<HtlcOp>, y: Option<HtlcOp>, k: Bytes)
    requires !r.Settled()
    requires x.Some? && x.value.Spend? && x.value.Key() == k
    requires y.Some? ==> y.value.Spend? && y.value.Key() == k
    ensures AdvanceBy(r, x) == AdvanceBy(r, y) <==> x == y
  {
    if y.Some? && AdvanceBy(r, x) == AdvanceBy(r, y) {
      var s, s' := x.value.spend, y.value.spend;
      PrimaryKeyInjective(s.lockTxId, s.outputIndex, s'.lockTxId, s'.outputIndex);
      assert s.arm == s'.arm;
    }
  }

  lemma BranchRow(pre: seq<BlockEvents>, a: seq<BlockEvents>, b: seq<BlockEvents>, w: Tables, k: Bytes)
    requires var straight := WalkData(EMPTY, pre).htlcs;
             Get(w.htlcs, k) ==
             if k in straight then Some(AdvanceBy(straight[k], FirstSpend(Flat(SpendOps, a), k))) else None
    ensures Get(WalkData(w, b).htlcs, k) == Get(WalkData(EMPTY, pre + b).htlcs, k) <==>
            (Stuck(pre, a, k) ==> Repaired(a, b, k))
  {
    var straight := WalkData(EMPTY, pre);
    WalkConcat(EMPTY, pre, b);
    HtlcRefinement(w, b, k);
    HtlcRefinement(straight, b, k);
    var fa, fb := FirstSpend(Flat(SpendOps, a), k), FirstSpend(Flat(SpendOps, b), k);
    FirstSpendIsSpend(Flat(SpendOps, a), k);
    FirstSpendIsSpend(Flat(SpendOps, b), k);
    if LastLock(b, k).None? && Stuck(pre, a, k) {
      AdvanceTwice(straight.htlcs[k], fa, fb);
      AdvanceTells(straight.htlcs[k], fa, fb, k);
    }
  }

  // Reorg convergence, at any depth: walking branch A, rewinding to the fork and walking
  // branch B gives the tables of walking B from empty exactly when B repairs every stuck row.
  lemma ReorgConvergence(pre: seq<BlockEvents>, a: seq<BlockEvents>, b: seq<BlockEvents>, cut: u64)
    requires ValidChain(pre + a) && CutsAt(pre, a, cut)
    ensures WalkData(WipeData(WalkData(EMPTY, pre + a), cut), b) == WalkData(EMPTY, pre + b) <==>
            forall k :: Stuck(pre, a, k) ==> Repaired(a, b, k)
  {
    RewindTheorem(pre, a, cut);
    var wiped, straight := WipeData(WalkData(EMPTY, pre + a), cut), WalkData(EMPTY, pre);
    var got, want := WalkData(wiped, b), WalkData(EMPTY, pre + b);
    WalkConcat(EMPTY, pre, b);
    WalkStreams(wiped, b);
    WalkStreams(straight, b);
    assert got == want.(htlcs := got.htlcs);
    forall k ensures Get(got.htlcs, k) == Get(want.htlcs, k) <==> (Stuck(pre, a, k) ==> Repaired(a, b, k)) {
      BranchRow(pre, a, b, wiped, k);
    }
    if forall k :: Stuck(pre, a, k) ==> Repaired(a, b, k) {
      MapsEqual(got.htlcs, want.htlcs);
    }
  }
}
