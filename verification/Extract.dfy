/**
 From transactions to events. What the node's own crate decides (whether a script
 is an HTLC, the template hash of one, the address of a key) is a parameter.
 */
module Extract {
  import opened ByteStrings
  import opened Records
  import opened Runs

  datatype Crate = Crate(
    tryParseHtlc: Bytes -> Option<HtlcParams>,
    contractHash: HtlcParams -> Hash,
    addressOf: Hash -> Hash)

  datatype TxInput = TxInput(prevTxId: Hash, outputIndex: u32)

  datatype TxOutput = TxOutput(value: u64, script: Bytes, datum: Option<Bytes>, datumHash: Option<Hash>)

  // A deserialized transaction; hashing it may fail.
  datatype Tx = Tx(txId: Option<Hash>, isCoinbase: bool, inputs: seq<TxInput>, outputs: seq<TxOutput>, witnesses: seq<Bytes>)

  const MIN_HTLC_SCRIPT_BYTES := 100
  const VALUE_TAG_LEFT: byte := 0x01
  const VALUE_TAG_RIGHT: byte := 0x02
  const VALUE_TAG_UNIT: byte := 0x00
  const VALUE_TAG_BYTES: byte := 0x05

  // A position, cast to 32 bits.
  function AsU32(i: nat): u32 {
    i % 0x1_0000_0000
  }

  // ---- Witnesses -------------------------------------------------------------

  function ExtractClaimPreimage(wit: Bytes): Option<Bytes> {
    if |wit| < 7 then None
    else if wit[0] != VALUE_TAG_LEFT || wit[1] != VALUE_TAG_UNIT || wit[2] != VALUE_TAG_BYTES then None
    else
      var len := FromLE(wit[3..7]);
      if |wit| < 7 + len then None else Some(wit[7..7 + len])
  }

  function ClassifySpendArm(wit: Bytes, spendingTxId: Hash, inputIndex: u32): Option<SpendArm> {
    if |wit| < 2 then None
    else if wit[0] == VALUE_TAG_LEFT then
      match ExtractClaimPreimage(wit)
      case Some(p) => Some(SpendArm.Claim(p, spendingTxId, inputIndex))
      case None => None
    else if wit[0] == VALUE_TAG_RIGHT then Some(SpendArm.Reclaim(spendingTxId, inputIndex))
    else None
  }

  // The claim layout: left, unit, a tagged byte string, and whatever follows.
  function PrintClaim(preimage: Bytes, rest: Bytes): Bytes {
    [VALUE_TAG_LEFT, VALUE_TAG_UNIT, VALUE_TAG_BYTES] + LE(|preimage|, 4) + preimage + rest
  }

  // Reading back a printed claim recovers the preimage, whatever its length and whatever
  // follows it.
  lemma PrintedClaimIsRead(preimage: Bytes, rest: Bytes, txId: Hash, index: u32)
    requires |preimage| < 0x1_0000_0000
    ensures ClassifySpendArm(PrintClaim(preimage, rest), txId, index) == Some(SpendArm.Claim(preimage, txId, index))
  {
    Widths();
    LERoundTrip(|preimage|, 4);
    var w := PrintClaim(preimage, rest);
    assert w[3..7] == LE(|preimage|, 4);
    assert w[7..7 + |preimage|] == preimage;
  }

  // A witness starts with a printed claim exactly when that is the preimage read from it.
  lemma ReadIsPrinted(wit: Bytes)
    ensures var read := ExtractClaimPreimage(wit);
            read.Some? ==> |read.value| < 0x1_0000_0000 && PrintClaim(read.value, []) <= wit
  {
    hide FromLE, LE;
    var read := ExtractClaimPreimage(wit);
    if read.Some? {
      Widths();
      FromLERoundTrip(wit[3..7]);
      var n := |read.value|;
      assert wit[..7] == [VALUE_TAG_LEFT, VALUE_TAG_UNIT, VALUE_TAG_BYTES] + LE(n, 4);
      assert wit[..7 + n] == wit[..7] + read.value == PrintClaim(read.value, []);
    }
  }

  lemma PrefixIsRead(wit: Bytes, p: Bytes, txId: Hash, index: u32)
    requires |p| < 0x1_0000_0000 && PrintClaim(p, []) <= wit
    ensures ClassifySpendArm(wit, txId, index) == Some(SpendArm.Claim(p, txId, index))
  {
    hide FromLE, LE, ClassifySpendArm;
    var head := PrintClaim(p, []);
    var rest := wit[|head|..];
    assert wit == head + rest == PrintClaim(p, rest);
    PrintedClaimIsRead(p, rest, txId, index);
  }

  // A witness classifies as a claim exactly when it starts with a printed claim, of exactly
  // the preimage read; as a reclaim exactly when it starts with the right tag and has a
  // second byte; otherwise as nothing.
  lemma ClassifiedExactly(wit: Bytes, txId: Hash, index: u32)
    ensures forall p :: ClassifySpendArm(wit, txId, index) == Some(SpendArm.Claim(p, txId, index)) <==>
                        (|p| < 0x1_0000_0000 && PrintClaim(p, []) <= wit)
    ensures ClassifySpendArm(wit, txId, index) == Some(SpendArm.Reclaim(txId, index)) <==>
            (|wit| >= 2 && wit[0] == VALUE_TAG_RIGHT)
    ensures var arm := ClassifySpendArm(wit, txId, index);
            arm.Some? ==> arm.value.spendingTxId == txId && arm.value.inputIndex == index
  {
    hide PrintClaim, ExtractClaimPreimage;
    ReadIsPrinted(wit);
    forall p | |p| < 0x1_0000_0000 && PrintClaim(p, []) <= wit
      ensures ClassifySpendArm(wit, txId, index) == Some(SpendArm.Claim(p, txId, index))
    {
      PrefixIsRead(wit, p, txId, index);
    }
  }

  // The layouts, byte for byte: a claim of two bytes with anything after it, and a reclaim.
  lemma WitnessBytes(a: byte, b: byte, rest: Bytes, txId: Hash, index: u32)
    ensures ClassifySpendArm([1, 0, 5, 2, 0, 0, 0, a, b] + rest, txId, index) == Some(SpendArm.Claim([a, b], txId, index))
    ensures ClassifySpendArm([2, a] + rest, txId, index) == Some(SpendArm.Reclaim(txId, index))
  {
    hide FromLE;
    ByteOrders(2, 0, 0, 0);
    var wit := [1, 0, 5, 2, 0, 0, 0, a, b] + rest;
    assert wit[3..7] == [2, 0, 0, 0] && wit[7..9] == [a, b];
  }

  // ---- Datums ------------------------------------------------------------------

  function StrictDecodeQuoteId(datum: Bytes): Option<QuoteId> {
    if |datum| != 16 then None else Some(datum)
  }

  // ---- Settlements --------------------------------------------------------------

  function SettledTxId(r: HtlcRecord): Option<Hash> {
    if r.claim.Some? then Some(r.claim.value.txId)
    else if r.reclaim.Some? then Some(r.reclaim.value.txId)
    else None
  }

  // One row per party of a settled HTLC.
  function SettlementsForSettledHtlc(c: Crate, r: HtlcRecord, height: u64): seq<SettlementRecord> {
    var txId := match SettledTxId(r) case Some(t) => t case None => r.lockTxId;
    var contract := c.contractHash(r.params);
    var sender, receiver := c.addressOf(r.params.sender), c.addressOf(r.params.receiver);
    [SettlementRecord(txId, height, contract, r.state, sender, receiver, r.amount, r.lockTxId, r.outputIndex),
     SettlementRecord(txId, height, contract, r.state, receiver, sender, r.amount, r.lockTxId, r.outputIndex)]
  }

  // ---- One transaction ----------------------------------------------------------

  datatype ExtractedTx = ExtractedTx(
    txId: Hash,
    locks: seq<HtlcRecord>,
    spends: seq<HtlcSpend>,
    activity: seq<AddressActivity>,
    outputDatums: seq<OutputDatum>)

  const NOTHING := ExtractedTx(ZERO_HASH, [], [], [], [])

  // The rows of positions 0 up to n, in order.
  function Gather<T>(n: nat, f: nat -> seq<T>): seq<T> {
    if n == 0 then [] else Gather(n - 1, f) + f(n - 1)
  }

  lemma GatherNone<T>(f: nat -> seq<T>)
    ensures Gather(0, f) == []
  {}

  lemma GatherNext<T>(n: nat, f: nat -> seq<T>)
    ensures Gather(n + 1, f) == Gather(n, f) + f(n)
  {}

  lemma {:induction false} GatherIn<T>(n: nat, f: nat -> seq<T>, x: T)
    ensures x in Gather(n, f) <==> exists i: nat :: i < n && x in f(i)
  {
    if n > 0 {
      GatherIn(n - 1, f, x);
    }
  }

  function DatumOf(o: TxOutput, txId: Hash, i: nat): seq<OutputDatum> {
    match o.datum
    case Some(datum) =>
      (match StrictDecodeQuoteId(datum)
       case Some(q) => [OutputDatum(txId, AsU32(i), Some(q), false)]
       case None => [])
    case None =>
      if o.datumHash.Some? then [OutputDatum(txId, AsU32(i), None, true)] else []
  }

  function ReceiptOf(o: TxOutput, txId: Hash, isCoinbase: bool): seq<AddressActivity> {
    if |o.script| == 32 then [AddressActivity(o.script, txId, o.value, false, isCoinbase, [])] else []
  }

  function LockOf(c: Crate, o: TxOutput, txId: Hash, i: nat, height: u64): seq<HtlcRecord> {
    if |o.script| >= MIN_HTLC_SCRIPT_BYTES then
      match c.tryParseHtlc(o.script)
      case Some(p) =>
        [HtlcRecord(txId, AsU32(i), p, o.value, Some(height),
                    if height > p.timeoutHeight then LockedExpired else Locked,
                    None, None, Observer, height)]
      case None => []
    else []
  }

  function SpendOf(tx: Tx, txId: Hash, i: nat): seq<HtlcSpend>
    requires i < |tx.inputs|
  {
    var wit := if i < |tx.witnesses| then tx.witnesses[i] else [];
    match ClassifySpendArm(wit, txId, AsU32(i))
    case Some(arm) => [HtlcSpend(tx.inputs[i].prevTxId, tx.inputs[i].outputIndex, arm)]
    case None => []
  }

  // The four streams of a transaction, position by position.
  function DatumsAt(tx: Tx, txId: Hash): nat -> seq<OutputDatum> {
    (i: nat) => if i < |tx.outputs| then DatumOf(tx.outputs[i], txId, i) else []
  }

  function ReceiptsAt(tx: Tx, txId: Hash): nat -> seq<AddressActivity> {
    (i: nat) => if i < |tx.outputs| then ReceiptOf(tx.outputs[i], txId, tx.isCoinbase) else []
  }

  function LocksAt(c: Crate, tx: Tx, txId: Hash, height: u64): nat -> seq<HtlcRecord> {
    (i: nat) => if i < |tx.outputs| then LockOf(c, tx.outputs[i], txId, i, height) else []
  }

  function SpendsAt(tx: Tx, txId: Hash): nat -> seq<HtlcSpend> {
    (i: nat) => if i < |tx.inputs| && !tx.isCoinbase then SpendOf(tx, txId, i) else []
  }

  function Extracted(c: Crate, tx: Tx, height: u64): ExtractedTx {
    match tx.txId
    case None => NOTHING
    case Some(txId) =>
      ExtractedTx(
        txId,
        Gather(|tx.outputs|, LocksAt(c, tx, txId, height)),
        Gather(|tx.inputs|, SpendsAt(tx, txId)),
        Gather(|tx.outputs|, ReceiptsAt(tx, txId)),
        Gather(|tx.outputs|, DatumsAt(tx, txId)))
  }

  method ExtractOutputs(c: Crate, tx: Tx, txId: Hash, height: u64)
    returns (locks: seq<HtlcRecord>, activity: seq<AddressActivity>, datums: seq<OutputDatum>)
    ensures locks == Gather(|tx.outputs|, LocksAt(c, tx, txId, height))
    ensures activity == Gather(|tx.outputs|, ReceiptsAt(tx, txId))
    ensures datums == Gather(|tx.outputs|, DatumsAt(tx, txId))
  {
    hide StrictDecodeQuoteId, Gather;
    locks, activity, datums := [], [], [];
    GatherNone(LocksAt(c, tx, txId, height));
    GatherNone(ReceiptsAt(tx, txId));
    GatherNone(DatumsAt(tx, txId));
    for i := 0 to |tx.outputs|
      invariant locks == Gather(i, LocksAt(c, tx, txId, height))
      invariant activity == Gather(i, ReceiptsAt(tx, txId))
      invariant datums == Gather(i, DatumsAt(tx, txId))
    {
      GatherNext(i, LocksAt(c, tx, txId, height));
      GatherNext(i, ReceiptsAt(tx, txId));
      GatherNext(i, DatumsAt(tx, txId));
      var o := tx.outputs[i];
      match o.datum {
        case Some(datum) =>
          var q := StrictDecodeQuoteId(datum);
          if q.Some? {
            datums := datums + [OutputDatum(txId, AsU32(i), q, false)];
          }
        case None =>
          if o.datumHash.Some? {
            datums := datums + [OutputDatum(txId, AsU32(i), None, true)];
          }
      }
      if |o.script| == 32 {
        activity := activity + [AddressActivity(o.script, txId, o.value, false, tx.isCoinbase, [])];
      }
      if |o.script| >= MIN_HTLC_SCRIPT_BYTES {
        var parsed := c.tryParseHtlc(o.script);
        if parsed.Some? {
          var state := if height > parsed.value.timeoutHeight then LockedExpired else Locked;
          locks := locks + [HtlcRecord(txId, AsU32(i), parsed.value, o.value, Some(height), state, None, None, Observer, height)];
        }
      }
    }
  }

  method ExtractFromTx(c: Crate, tx: Tx, height: u64) returns (r: ExtractedTx)
    ensures r == Extracted(c, tx, height)
  {
    hide ClassifySpendArm, Gather;
    if tx.txId.None? {
      return NOTHING;
    }
    var txId := tx.txId.value;
    var locks, activity, datums := ExtractOutputs(c, tx, txId, height);
    var spends := [];
    GatherNone(SpendsAt(tx, txId));
    for i := 0 to |tx.inputs|
      invariant spends == Gather(i, SpendsAt(tx, txId))
    {
      GatherNext(i, SpendsAt(tx, txId));
      if !tx.isCoinbase {
        var wit := if i < |tx.witnesses| then tx.witnesses[i] else [];
        var arm := ClassifySpendArm(wit, txId, AsU32(i));
        if arm.Some? {
          spends := spends + [HtlcSpend(tx.inputs[i].prevTxId, tx.inputs[i].outputIndex, arm.value)];
        }
      }
    }
    r := ExtractedTx(txId, locks, spends, activity, datums);
  }

  // ---- What extraction promises ---------------------------------------------------

  // Locks are fresh, carry the block's height and name the transaction; datums name it too
  // and are honorable or flagged, never both.
  lemma ExtractedRows(c: Crate, tx: Tx, height: u64)
    ensures var e := Extracted(c, tx, height);
            && (forall r :: r in e.locks ==> FreshLock(r, height) && Some(r.lockTxId) == tx.txId)
            && (forall d :: d in e.outputDatums ==> (d.quoteId.Some? <==> !d.unhonorable) && Some(d.txId) == tx.txId)
            && (forall a :: a in e.activity ==> !a.isInput && a.counterparties == [])
  {
    hide Gather;
    var e := Extracted(c, tx, height);
    if tx.txId.Some? {
      var txId := tx.txId.value;
      forall r | r in e.locks ensures FreshLock(r, height) && r.lockTxId == txId {
        GatherIn(|tx.outputs|, LocksAt(c, tx, txId, height), r);
      }
      forall d | d in e.outputDatums ensures (d.quoteId.Some? <==> !d.unhonorable) && d.txId == txId {
        GatherIn(|tx.outputs|, DatumsAt(tx, txId), d);
      }
      forall a | a in e.activity ensures !a.isInput && a.counterparties == [] {
        GatherIn(|tx.outputs|, ReceiptsAt(tx, txId), a);
      }
    }
  }

  // A transaction that cannot be hashed yields nothing.
  lemma NothingExtracted(c: Crate, tx: Tx, height: u64)
    requires tx.txId.None?
    ensures var e := Extracted(c, tx, height);
            && e.locks == [] && e.spends == [] && e.activity == [] && e.outputDatums == []
            && forall i :: 0 <= i < 32 ==> e.txId[i] == 0
  {}

  // The record an HTLC output makes: its parties and amount, expired exactly when the block
  // is past the timeout, and nothing settled.
  predicate LocksOutput(c: Crate, o: TxOutput, r: HtlcRecord, height: u64) {
    && |o.script| >= 100 && c.tryParseHtlc(o.script) == Some(r.params)
    && r.amount == o.value
    && r.state == (if height > r.params.timeoutHeight then LockedExpired else Locked)
    && r.lockBlockHeight == Some(height) && r.lastIndexedHeight == height
    && r.claim == None && r.reclaim == None && r.role == Observer
  }

  lemma LockOfOne(c: Crate, o: TxOutput, txId: Hash, i: nat, height: u64, r: HtlcRecord)
    requires i < 0x1_0000_0000
    ensures r in LockOf(c, o, txId, i, height) <==> r.lockTxId == txId && r.outputIndex == i && LocksOutput(c, o, r, height)
  {}

  lemma LocksExactly(c: Crate, tx: Tx, height: u64, r: HtlcRecord)
    requires tx.txId.Some? && |tx.outputs| <= 0x1_0000_0000
    ensures r in Extracted(c, tx, height).locks <==>
            (r.lockTxId == tx.txId.value && r.outputIndex < |tx.outputs| && LocksOutput(c, tx.outputs[r.outputIndex], r, height))
  {
    hide Gather, LocksOutput, LockOf;
    var txId := tx.txId.value;
    GatherIn(|tx.outputs|, LocksAt(c, tx, txId, height), r);
    forall i: nat | i < |tx.outputs|
      ensures r in LocksAt(c, tx, txId, height)(i) <==>
        (r.lockTxId == txId && r.outputIndex == i && LocksOutput(c, tx.outputs[i], r, height))
    {
      LockOfOne(c, tx.outputs[i], txId, i, height, r);
    }
  }

  // The receipts are the outputs whose script is an address.
  predicate ReceivesAt(tx: Tx, i: nat, a: AddressActivity) {
    && i < |tx.outputs| && tx.outputs[i].script == a.address && a.amount == tx.outputs[i].value
    && Some(a.txId) == tx.txId && !a.isInput && a.isCoinbase == tx.isCoinbase && a.counterparties == []
  }

  lemma ReceiptsExactly(c: Crate, tx: Tx, height: u64, a: AddressActivity)
    requires tx.txId.Some?
    ensures a in Extracted(c, tx, height).activity <==> exists i: nat :: ReceivesAt(tx, i, a)
  {
    hide Gather;
    var txId := tx.txId.value;
    GatherIn(|tx.outputs|, ReceiptsAt(tx, txId), a);
    forall i: nat | i < |tx.outputs| ensures a in ReceiptsAt(tx, txId)(i) <==> ReceivesAt(tx, i, a) {
    }
  }

  // An output is indexed under a quote exactly when its inline datum is those sixteen bytes,
  // and flagged exactly when it commits to a datum it does not show.
  predicate ShowsDatum(o: TxOutput, d: OutputDatum) {
    if d.unhonorable then d.quoteId.None? && o.datum.None? && o.datumHash.Some?
    else d.quoteId.Some? && o.datum == Some(d.quoteId.value)
  }

  lemma DatumsExactly(c: Crate, tx: Tx, height: u64, d: OutputDatum)
    requires tx.txId.Some? && |tx.outputs| <= 0x1_0000_0000
    ensures d in Extracted(c, tx, height).outputDatums <==>
            (d.txId == tx.txId.value && d.outputIndex < |tx.outputs| && ShowsDatum(tx.outputs[d.outputIndex], d))
  {
    hide Gather;
    var txId := tx.txId.value;
    GatherIn(|tx.outputs|, DatumsAt(tx, txId), d);
    forall i: nat | i < |tx.outputs|
      ensures d in DatumsAt(tx, txId)(i) <==> (d.txId == txId && d.outputIndex == i && ShowsDatum(tx.outputs[i], d))
    {
      DatumOfOne(tx.outputs[i], txId, i, d);
    }
  }

  lemma DatumOfOne(o: TxOutput, txId: Hash, i: nat, d: OutputDatum)
    requires i < 0x1_0000_0000
    ensures d in DatumOf(o, txId, i) <==> (d.txId == txId && d.outputIndex == i && ShowsDatum(o, d))
  {}

  // The spends are the classified inputs of a transaction that is not a coinbase.
  predicate SpendsInput(tx: Tx, txId: Hash, i: nat, s: HtlcSpend) {
    && i < |tx.inputs| && tx.inputs[i] == TxInput(s.lockTxId, s.outputIndex)
    && ClassifySpendArm(if i < |tx.witnesses| then tx.witnesses[i] else [], txId, AsU32(i)) == Some(s.arm)
  }

  lemma SpendsExactly(c: Crate, tx: Tx, height: u64, s: HtlcSpend)
    requires tx.txId.Some?
    ensures s in Extracted(c, tx, height).spends <==> !tx.isCoinbase && exists i: nat :: SpendsInput(tx, tx.txId.value, i, s)
  {
    hide Gather, ClassifySpendArm;
    var txId := tx.txId.value;
    GatherIn(|tx.inputs|, SpendsAt(tx, txId), s);
    forall i: nat | i < |tx.inputs| && !tx.isCoinbase ensures s in SpendsAt(tx, txId)(i) <==> SpendsInput(tx, txId, i, s) {
    }
  }
}
