/**
 From a node's block to the events the follower commits for it: the per-input
 joins, the counterparties of each row, and the settlements peeked from the store.
 */
module Blocks {
  import opened ByteStrings
  import opened Records
  import opened Keys
  import opened Folds
  import opened Seqs
  import opened Extract

  datatype Block = Block(id: Hash, txCount: u64, timestamp: u64, transactions: seq<Hash>)

  // The upstream node: its canonical chain, and what it answers for a transaction id. An id
  // it does not list is an upstream error; `None` is an answer with an empty body.
  datatype Node = Node(chain: seq<Block>, txs: map<Hash, Option<Tx>>)
  {
    predicate Knows(id: Hash) {
      id in txs
    }

    predicate HasBody(id: Hash) {
      id in txs && txs[id].Some?
    }
  }

  // ---- The input side of a transaction ---------------------------------------

  function Prevout(node: Node, input: TxInput): Option<TxOutput> {
    if node.HasBody(input.prevTxId) && input.outputIndex < |node.txs[input.prevTxId].value.outputs|
    then Some(node.txs[input.prevTxId].value.outputs[input.outputIndex])
    else None
  }

  function PaymentOf(o: Option<TxOutput>, txId: Hash): seq<AddressActivity> {
    match o
    case Some(out) => if |out.script| == 32 then [AddressActivity(out.script, txId, out.value, true, false, [])] else []
    case None => []
  }

  function PaymentsAt(node: Node, tx: Tx, txId: Hash): nat -> seq<AddressActivity> {
    (i: nat) => if i < |tx.inputs| then PaymentOf(Prevout(node, tx.inputs[i]), txId) else []
  }

  function SpentByAt(tx: Tx, txId: Hash, height: u64): nat -> seq<SpentByEntry> {
    (i: nat) =>
      if i < |tx.inputs|
      then [SpentByEntry(tx.inputs[i].prevTxId, tx.inputs[i].outputIndex, txId, AsU32(i), height)]
      else []
  }

  // A coinbase has no inputs to join.
  function Joined(tx: Tx): nat {
    if tx.isCoinbase then 0 else |tx.inputs|
  }

  // ---- Counterparties ----------------------------------------------------------

  // The addresses of some rows, each once, in order of first appearance.
  function Distinct(rows: seq<AddressActivity>): seq<Hash> {
    if rows == [] then []
    else
      var n := |rows| - 1;
      var before := Distinct(rows[..n]);
      if rows[n].address in before then before else before + [rows[n].address]
  }

  function Other(address: Hash): Hash -> bool {
    (a: Hash) => a != address
  }

  function Faced(row: AddressActivity, recipients: seq<Hash>, senders: seq<Hash>): AddressActivity {
    row.(counterparties := Filter(if row.isInput then recipients else senders, Other(row.address)))
  }

  function Attach(rows: seq<AddressActivity>, recipients: seq<Hash>, senders: seq<Hash>): (r: seq<AddressActivity>)
    ensures |r| == |rows|
  {
    seq(|rows|, i requires 0 <= i < |rows| => Faced(rows[i], recipients, senders))
  }

  function Receipts(c: Crate, tx: Tx, height: u64): seq<AddressActivity> {
    Extracted(c, tx, height).activity
  }

  function Payments(c: Crate, node: Node, tx: Tx, height: u64): seq<AddressActivity> {
    Gather(Joined(tx), PaymentsAt(node, tx, Extracted(c, tx, height).txId))
  }

  // The address rows of a transaction: receipts first, then payments.
  function TxActivity(c: Crate, node: Node, tx: Tx, height: u64): seq<AddressActivity> {
    var receipts, payments := Receipts(c, tx, height), Payments(c, node, tx, height);
    Attach(receipts + payments, Distinct(receipts), Distinct(payments))
  }

  // The payments are the inputs whose previous output the node knows and whose script is an
  // address; a coinbase makes none.
  predicate PaysAt(node: Node, tx: Tx, i: nat, a: AddressActivity) {
    && !tx.isCoinbase && i < |tx.inputs| && Held(node, tx.inputs[i], a.address, a.amount)
    && Some(a.txId) == tx.txId && a.isInput && !a.isCoinbase && a.counterparties == []
  }

  // The output an input spends held the amount for the address.
  predicate Held(node: Node, input: TxInput, address: Bytes, amount: u64) {
    && input.prevTxId in node.txs && node.txs[input.prevTxId].Some?
    && input.outputIndex < |node.txs[input.prevTxId].value.outputs|
    && node.txs[input.prevTxId].value.outputs[input.outputIndex].script == address
    && node.txs[input.prevTxId].value.outputs[input.outputIndex].value == amount
  }

  // The spent-by entries are the inputs of a transaction that is not a coinbase.
  predicate EntersAt(tx: Tx, txId: Hash, height: u64, i: nat, e: SpentByEntry) {
    && !tx.isCoinbase && i < |tx.inputs| && tx.inputs[i].prevTxId == e.prevTxId && tx.inputs[i].outputIndex == e.outputIndex
    && e.spendingTxId == txId && e.inputIndex == i % 0x1_0000_0000 && e.blockHeight == height
  }

  lemma SpentByExactly(tx: Tx, txId: Hash, height: u64, e: SpentByEntry)
    ensures e in Gather(Joined(tx), SpentByAt(tx, txId, height)) <==> exists i: nat :: EntersAt(tx, txId, height, i, e)
  {
    hide Gather;
    GatherIn(Joined(tx), SpentByAt(tx, txId, height), e);
    forall i: nat | i < Joined(tx) ensures e in SpentByAt(tx, txId, height)(i) <==> EntersAt(tx, txId, height, i, e) {
    }
  }

  lemma PaymentsExactly(c: Crate, node: Node, tx: Tx, height: u64, a: AddressActivity)
    requires tx.txId.Some?
    ensures a in Payments(c, node, tx, height) <==> exists i: nat :: PaysAt(node, tx, i, a)
  {
    hide Gather;
    var txId := tx.txId.value;
    GatherIn(Joined(tx), PaymentsAt(node, tx, txId), a);
    forall i: nat | i < Joined(tx) ensures a in PaymentsAt(node, tx, txId)(i) <==> PaysAt(node, tx, i, a) {
    }
  }

  lemma {:induction false} DistinctMeans(rows: seq<AddressActivity>)
    ensures NoRepeats(Distinct(rows))
    ensures forall a :: a in Distinct(rows) <==> exists i :: 0 <= i < |rows| && rows[i].address == a
  {
    if rows != [] {
      var n := |rows| - 1;
      DistinctMeans(rows[..n]);
      assert forall i :: 0 <= i < n ==> rows[..n][i] == rows[i];
    }
  }

  lemma SidesOf(c: Crate, node: Node, tx: Tx, height: u64)
    ensures forall i :: 0 <= i < |Receipts(c, tx, height)| ==> !Receipts(c, tx, height)[i].isInput
    ensures forall i :: 0 <= i < |Payments(c, node, tx, height)| ==> Payments(c, node, tx, height)[i].isInput
  {
    hide Gather, Extracted;
    ExtractedRows(c, tx, height);
    var f := PaymentsAt(node, tx, Extracted(c, tx, height).txId);
    forall i | 0 <= i < |Payments(c, node, tx, height)| ensures Payments(c, node, tx, height)[i].isInput {
      GatherIn(Joined(tx), f, Payments(c, node, tx, height)[i]);
    }
  }

  // Row i of a transaction faces row j: they are on opposite sides, of different addresses.
  predicate Faces(rows: seq<AddressActivity>, i: nat, j: nat) {
    i < |rows| && j < |rows| && rows[i].isInput != rows[j].isInput && rows[i].address != rows[j].address
  }

  lemma FacedRow(receipts: seq<AddressActivity>, payments: seq<AddressActivity>, i: nat)
    requires i < |receipts| + |payments|
    requires forall j :: 0 <= j < |receipts| ==> !receipts[j].isInput
    requires forall j :: 0 <= j < |payments| ==> payments[j].isInput
    ensures var rows := receipts + payments;
            var listed := Faced(rows[i], Distinct(receipts), Distinct(payments)).counterparties;
            && NoRepeats(listed)
            && (forall y :: y in listed <==> exists j: nat :: Faces(rows, i, j) && rows[j].address == y)
  {
    hide Distinct, Filter;
    var rows := receipts + payments;
    var side := if rows[i].isInput then Distinct(receipts) else Distinct(payments);
    DistinctMeans(receipts);
    DistinctMeans(payments);
    FilterNoRepeats(side, Other(rows[i].address));
    var listed := Filter(side, Other(rows[i].address));
    forall y ensures y in listed <==> exists j: nat :: Faces(rows, i, j) && rows[j].address == y {
      FilterIn(side, Other(rows[i].address), y);
      if y in listed {
        if rows[i].isInput {
          var j :| 0 <= j < |receipts| && receipts[j].address == y;
          assert Faces(rows, i, j);
        } else {
          var j :| 0 <= j < |payments| && payments[j].address == y;
          assert Faces(rows, i, |receipts| + j);
        }
      }
      if j: nat :| Faces(rows, i, j) && rows[j].address == y {
        if rows[i].isInput {
          assert j < |receipts| && receipts[j].address == y;
        } else {
          assert payments[j - |receipts|].address == y;
        }
      }
    }
  }

  // The counterparties of a row are exactly the addresses of the rows it faces, each once and
  // never its own.
  lemma CounterpartiesExactly(c: Crate, node: Node, tx: Tx, height: u64, i: nat)
    requires i < |TxActivity(c, node, tx, height)|
    ensures var rows := TxActivity(c, node, tx, height);
            && NoRepeats(rows[i].counterparties)
            && rows[i].address !in rows[i].counterparties
            && forall y :: y in rows[i].counterparties <==> exists j: nat :: Faces(rows, i, j) && rows[j].address == y
  {
    hide Distinct, Filter, Receipts, Payments;
    var receipts, payments := Receipts(c, tx, height), Payments(c, node, tx, height);
    var rows := TxActivity(c, node, tx, height);
    SidesOf(c, node, tx, height);
    FacedRow(receipts, payments, i);
    forall j: nat ensures Faces(rows, i, j) <==> Faces(receipts + payments, i, j) {
    }
  }

  // So counterparties are mutual: of two rows on opposite sides, either both list each
  // other's address or neither does, and they do exactly when the addresses differ.
  lemma CounterpartyDuality(c: Crate, node: Node, tx: Tx, height: u64, i: nat, j: nat)
    requires i < |TxActivity(c, node, tx, height)| && j < |TxActivity(c, node, tx, height)|
    requires TxActivity(c, node, tx, height)[i].isInput != TxActivity(c, node, tx, height)[j].isInput
    ensures var rows := TxActivity(c, node, tx, height);
            && (rows[j].address in rows[i].counterparties <==> rows[i].address in rows[j].counterparties)
            && (rows[j].address in rows[i].counterparties <==> rows[i].address != rows[j].address)
  {
    hide TxActivity;
    var rows := TxActivity(c, node, tx, height);
    CounterpartiesExactly(c, node, tx, height, i);
    CounterpartiesExactly(c, node, tx, height, j);
    if rows[i].address != rows[j].address {
      assert Faces(rows, i, j) && Faces(rows, j, i);
    }
  }

  // ---- The events of a block -----------------------------------------------------

  function BodyAt(node: Node): Hash -> seq<Tx> {
    (id: Hash) => if node.HasBody(id) then [node.txs[id].value] else []
  }

  function Bodies(node: Node, ids: seq<Hash>): seq<Tx> {
    Flat(BodyAt(node), ids)
  }

  function LocksOf(c: Crate, height: u64): Tx -> seq<HtlcRecord> {
    (tx: Tx) => Extracted(c, tx, height).locks
  }

  function SpendsOf(c: Crate, height: u64): Tx -> seq<HtlcSpend> {
    (tx: Tx) => Extracted(c, tx, height).spends
  }

  function DatumsOf(c: Crate, height: u64): Tx -> seq<OutputDatum> {
    (tx: Tx) => Extracted(c, tx, height).outputDatums
  }

  function ActivityOf(c: Crate, node: Node, height: u64): Tx -> seq<AddressActivity> {
    (tx: Tx) => TxActivity(c, node, tx, height)
  }

  function SpentByOf(c: Crate, height: u64): Tx -> seq<SpentByEntry> {
    (tx: Tx) => Gather(Joined(tx), SpentByAt(tx, Extracted(c, tx, height).txId, height))
  }

  // The settlement rows of a spend: the record as the store holds it before the block, with
  // only its state set to the outcome.
  function SettledBy(c: Crate, htlcs: map<Bytes, HtlcRecord>, height: u64): HtlcSpend -> seq<SettlementRecord> {
    (s: HtlcSpend) =>
      if SpendKey(s) in htlcs
      then SettlementsForSettledHtlc(c, htlcs[SpendKey(s)].(state := if s.arm.Claim? then Claimed else Reclaimed), height)
      else []
  }

  // What a spend of a held record makes is exactly two rows, one as each party sees it: the
  // settling transaction if the record knows one and else the locking one, the outcome of
  // the spend, and the record's contract, amount and outpoint.
  predicate SettlesFor(c: Crate, r: HtlcRecord, arm: SpendArm, height: u64, row: SettlementRecord) {
    && row.txId == (if r.claim.Some? then r.claim.value.txId else if r.reclaim.Some? then r.reclaim.value.txId else r.lockTxId)
    && row.blockHeight == height && row.contractHash == c.contractHash(r.params)
    && row.outcome == (if arm.Claim? then Claimed else Reclaimed)
    && row.amount == r.amount && row.lockTxId == r.lockTxId && row.lockOutputIndex == r.outputIndex
    && var sender, receiver := c.addressOf(r.params.sender), c.addressOf(r.params.receiver);
       || (row.observerAddress == sender && row.counterparty == receiver)
       || (row.observerAddress == receiver && row.counterparty == sender)
  }

  lemma SettlementRowsExactly(c: Crate, htlcs: map<Bytes, HtlcRecord>, height: u64, s: HtlcSpend, row: SettlementRecord)
    ensures row in SettledBy(c, htlcs, height)(s) <==>
            SpendKey(s) in htlcs && SettlesFor(c, htlcs[SpendKey(s)], s.arm, height, row)
  {
    hide SpendKey;
  }

  // Hence either party has its row.
  lemma BothPartiesSettle(c: Crate, htlcs: map<Bytes, HtlcRecord>, height: u64, s: HtlcSpend)
    requires SpendKey(s) in htlcs
    ensures var r := htlcs[SpendKey(s)];
            var sender, receiver := c.addressOf(r.params.sender), c.addressOf(r.params.receiver);
            && (exists row :: row in SettledBy(c, htlcs, height)(s) && row.observerAddress == sender && row.counterparty == receiver)
            && (exists row :: row in SettledBy(c, htlcs, height)(s) && row.observerAddress == receiver && row.counterparty == sender)
  {
    hide SpendKey;
    var rows := SettledBy(c, htlcs, height)(s);
    assert rows[0] in rows && rows[1] in rows;
  }

  function EventsOf(c: Crate, node: Node, block: Block, height: u64, htlcs: map<Bytes, HtlcRecord>, startedAt: u64): BlockEvents {
    var txs := Bodies(node, block.transactions);
    var spends := Flat(SpendsOf(c, height), txs);
    BlockEvents(
      height, block.id, block.txCount, block.timestamp, false, startedAt,
      Flat(LocksOf(c, height), txs),
      spends,
      Flat(SettledBy(c, htlcs, height), spends),
      Flat(ActivityOf(c, node, height), txs),
      Flat(SpentByOf(c, height), txs),
      Flat(DatumsOf(c, height), txs))
  }

  // The node answers every lookup a block needs.
  predicate InputsKnown(node: Node, tx: Tx) {
    forall i :: 0 <= i < Joined(tx) ==> node.Knows(tx.inputs[i].prevTxId)
  }

  predicate Fetchable(node: Node, block: Block) {
    forall i :: 0 <= i < |block.transactions| ==>
      node.HasBody(block.transactions[i]) && InputsKnown(node, node.txs[block.transactions[i]].value)
  }
}
