/** What the chain carries and what a walk of it stores, row by row. */
module OnChain {
  import opened ByteStrings
  import opened Records
  import opened Keys
  import opened Folds
  import opened Tables
  import opened Replay
  import opened Rewind
  import opened Extract
  import opened Blocks
  import opened Following
  import opened Forks
  import opened Guarantees
  import opened Reorg
  import opened Reindex

  // A transaction of the block, with its body.
  predicate InBlock(node: Node, block: Block, txId: Hash) {
    txId in block.transactions && node.HasBody(txId)
  }

  // A row is in a stream of a block exactly when it is in that of one of its transactions.
  lemma FromBlock<T>(f: Tx -> seq<T>, node: Node, block: Block, x: T)
    ensures x in Flat(f, Bodies(node, block.transactions)) <==>
            exists id :: InBlock(node, block, id) && x in f(node.txs[id].value)
  {
    hide Flat;
    var ids := block.transactions;
    if x in Flat(f, Bodies(node, ids)) {
      var tx := SourceOf(f, node, block, x);
      var id :| id in ids && node.HasBody(id) && tx == node.txs[id].value;
      assert InBlock(node, block, id);
    }
    if id :| InBlock(node, block, id) && x in f(node.txs[id].value) {
      var j :| 0 <= j < |ids| && ids[j] == id;
      assert node.txs[id].value in BodyAt(node)(ids[j]);
      FlatIn(BodyAt(node), ids, node.txs[id].value);
      FlatIn(f, Bodies(node, ids), x);
    }
  }

  // ---- Spent outpoints ---------------------------------------------------------------

  ghost predicate SpendsOutpoint(node: Node, block: Block, prev: Hash, index: u32) {
    exists id, i :: InBlock(node, block, id) && !node.txs[id].value.isCoinbase && 0 <= i < |node.txs[id].value.inputs|
                    && node.txs[id].value.inputs[i] == TxInput(prev, index)
  }

  lemma SpentByFromInput(c: Crate, node: Node, block: Block, height: u64, prev: Hash, index: u32)
    ensures (exists e :: e in Flat(SpentByOf(c, height), Bodies(node, block.transactions))
                         && SpentByKey(e) == PrimaryKey(prev, index))
            <==> SpendsOutpoint(node, block, prev, index)
  {
    hide Extracted, Gather, Flat, Bodies, PrimaryKey;
    var f := SpentByOf(c, height);
    if e :| e in Flat(f, Bodies(node, block.transactions)) && SpentByKey(e) == PrimaryKey(prev, index) {
      PrimaryKeyInjective(e.prevTxId, e.outputIndex, prev, index);
      var id, i := SpentByOfBlock(c, node, block, height, e);
      assert InBlock(node, block, id);
    }
    if id, i :| InBlock(node, block, id) && !node.txs[id].value.isCoinbase && 0 <= i < |node.txs[id].value.inputs|
                && node.txs[id].value.inputs[i] == TxInput(prev, index) {
      var tx := node.txs[id].value;
      var txId := Extracted(c, tx, height).txId;
      var e := SpentByEntry(prev, index, txId, AsU32(i), height);
      GatherIn(Joined(tx), SpentByAt(tx, txId, height), e);
      assert e in SpentByAt(tx, txId, height)(i);
      FromBlock(f, node, block, e);
      assert SpentByKey(e) == PrimaryKey(prev, index);
    }
  }

  lemma SpentByPut(t: Tables, ev: BlockEvents, k: Bytes)
    ensures k in ApplyData(t, ev).spentBy <==> k in t.spentBy || exists e :: e in ev.spentBy && SpentByKey(e) == k
  {
    hide HtlcFold, SpentByKey;
    var puts := SpentByPuts(ev);
    PutAllOverlays(t.spentBy, puts);
    hide PutAll;
    if e :| e in ev.spentBy && SpentByKey(e) == k {
      var i :| 0 <= i < |ev.spentBy| && ev.spentBy[i] == e;
      assert puts[i].key == k;
    }
    if i :| 0 <= i < |puts| && puts[i].key == k {
      assert ev.spentBy[i] in ev.spentBy;
    }
  }

  // An outpoint has a spent-by row exactly when an input walked spends it.
  lemma {:induction false} SpentByOnChain(c: Crate, node: Node, n: nat, prev: Hash, index: u32)
    requires n <= |node.chain| <= U64_MAX
    ensures PrimaryKey(prev, index) in Straight(c, node, n).spentBy <==>
            exists h :: 0 <= h < n && SpendsOutpoint(node, node.chain[h], prev, index)
  {
    hide ApplyData, PrimaryKey, SpendsOutpoint, Flat, Bodies;
    if n > 0 {
      SpentByOnChain(c, node, n - 1, prev, index);
      var before := Straight(c, node, n - 1);
      SpentByPut(before, EventsAt(c, node, n - 1, before.htlcs, 0), PrimaryKey(prev, index));
      SpentByFromInput(c, node, node.chain[n - 1], n - 1, prev, index);
    }
  }

  // The row names the spending transaction, its input and the height.
  lemma {:induction false} SpentByRowOnChain(c: Crate, node: Node, n: nat, k: Bytes) returns (h: nat, id: Hash, i: nat)
    requires n <= |node.chain| <= U64_MAX && OwnIds(node) && k in Straight(c, node, n).spentBy
    ensures var e := Straight(c, node, n).spentBy[k];
            h < n && InBlock(node, node.chain[h], id) && EntersAt(node.txs[id].value, id, h, i, e)
            && k == PrimaryKey(e.prevTxId, e.outputIndex)
  {
    hide OwnIds, ApplyData, PrimaryKey, Flat, Bodies, EntersAt;
    var before := Straight(c, node, n - 1);
    var ev := EventsAt(c, node, n - 1, before.htlcs, 0);
    var e := Straight(c, node, n).spentBy[k];
    SpentByLast(before, ev, k);
    if e in ev.spentBy && k == SpentByKey(e) {
      h := n - 1;
      id, i := EntrySource(c, node, node.chain[h], h, e);
    } else {
      h, id, i := SpentByRowOnChain(c, node, n - 1, k);
    }
  }

  lemma SpentByLast(t: Tables, ev: BlockEvents, k: Bytes)
    requires k in ApplyData(t, ev).spentBy
    ensures var e := ApplyData(t, ev).spentBy[k];
            (e in ev.spentBy && k == SpentByKey(e)) || (k in t.spentBy && t.spentBy[k] == e)
  {
    hide HtlcFold, SpentByKey;
    var puts := SpentByPuts(ev);
    PutAllLast(t.spentBy, puts, k);
    if i :| 0 <= i < |puts| && puts[i] == Put(k, PutAll(t.spentBy, puts)[k]) {
      assert ev.spentBy[i] in ev.spentBy;
    }
  }

  lemma EntrySource(c: Crate, node: Node, block: Block, height: u64, e: SpentByEntry) returns (id: Hash, i: nat)
    requires OwnIds(node) && e in Flat(SpentByOf(c, height), Bodies(node, block.transactions))
    ensures InBlock(node, block, id) && EntersAt(node.txs[id].value, id, height, i, e)
  {
    hide OwnIds, Flat, Bodies, Gather, EntersAt;
    FromBlock(SpentByOf(c, height), node, block, e);
    id :| InBlock(node, block, id) && e in SpentByOf(c, height)(node.txs[id].value);
    BodyOwnsId(node, id);
    SpentByExactly(node.txs[id].value, id, height, e);
    i :| EntersAt(node.txs[id].value, id, height, i, e);
  }

  // ---- Address rows -------------------------------------------------------------------

  // An output of the transaction pays the address.
  ghost predicate Pays(tx: Tx, address: Hash) {
    exists i :: 0 <= i < |tx.outputs| && tx.outputs[i].script == address
  }

  // An input of the transaction, not a coinbase, spends an output that paid the address.
  ghost predicate Spends(node: Node, tx: Tx, address: Hash) {
    !tx.isCoinbase && exists i, amount :: 0 <= i < |tx.inputs| && Held(node, tx.inputs[i], address, amount)
  }

  ghost predicate Touches(node: Node, tx: Tx, address: Hash, isInput: bool) {
    if isInput then Spends(node, tx, address) else Pays(tx, address)
  }

  lemma ReceiptFromOutput(c: Crate, tx: Tx, height: u64, address: Hash)
    requires tx.txId.Some?
    ensures (exists r :: r in Receipts(c, tx, height) && r.address == address) <==> Pays(tx, address)
    ensures forall r :: r in Receipts(c, tx, height) ==> r.txId == tx.txId.value
  {
    hide Extracted;
    forall r | r in Receipts(c, tx, height) ensures r.txId == tx.txId.value && Pays(tx, r.address) {
      ReceiptsExactly(c, tx, height, r);
      var i: nat :| ReceivesAt(tx, i, r);
      assert tx.outputs[i].script == r.address;
    }
    if i :| 0 <= i < |tx.outputs| && tx.outputs[i].script == address {
      var r := AddressActivity(address, tx.txId.value, tx.outputs[i].value, false, tx.isCoinbase, []);
      assert ReceivesAt(tx, i, r);
      ReceiptsExactly(c, tx, height, r);
    }
  }

  lemma PaymentFromInput(c: Crate, node: Node, tx: Tx, height: u64, address: Hash)
    requires tx.txId.Some?
    ensures (exists r :: r in Payments(c, node, tx, height) && r.address == address) <==> Spends(node, tx, address)
    ensures forall r :: r in Payments(c, node, tx, height) ==> r.txId == tx.txId.value
  {
    hide Payments, Held;
    forall r | r in Payments(c, node, tx, height) ensures r.txId == tx.txId.value && Spends(node, tx, r.address) {
      PaymentsExactly(c, node, tx, height, r);
      var i: nat :| PaysAt(node, tx, i, r);
      assert Held(node, tx.inputs[i], r.address, r.amount);
    }
    if Spends(node, tx, address) {
      var i, amount :| 0 <= i < |tx.inputs| && Held(node, tx.inputs[i], address, amount);
      var r := AddressActivity(address, tx.txId.value, amount, true, false, []);
      assert PaysAt(node, tx, i, r);
      PaymentsExactly(c, node, tx, height, r);
    }
  }

  lemma RowTouches(c: Crate, node: Node, tx: Tx, height: u64, address: Hash, isInput: bool)
    requires tx.txId.Some?
    ensures (exists r :: r in TxActivity(c, node, tx, height) && r.address == address && r.isInput == isInput)
            <==> Touches(node, tx, address, isInput)
    ensures forall r :: r in TxActivity(c, node, tx, height) ==> r.txId == tx.txId.value
  {
    hide Receipts, Payments, Distinct, Pays, Spends;
    var receipts, payments := Receipts(c, tx, height), Payments(c, node, tx, height);
    var rows := TxActivity(c, node, tx, height);
    SidesOf(c, node, tx, height);
    ReceiptFromOutput(c, tx, height, address);
    PaymentFromInput(c, node, tx, height, address);
    forall r | r in rows
      ensures r.txId == tx.txId.value && (r.address == address && r.isInput == isInput ==> Touches(node, tx, address, isInput))
    {
      var i :| 0 <= i < |rows| && rows[i] == r;
      assert i < |receipts| ==> receipts[i] in receipts;
      assert i >= |receipts| ==> payments[i - |receipts|] in payments;
    }
    if Touches(node, tx, address, isInput) {
      if isInput {
        var r :| r in payments && r.address == address;
        var i :| 0 <= i < |payments| && payments[i] == r;
        assert rows[|receipts| + i] in rows;
      } else {
        var r :| r in receipts && r.address == address;
        var i :| 0 <= i < |receipts| && receipts[i] == r;
        assert rows[i] in rows;
      }
    }
  }

  function Direction(isInput: bool): byte {
    if isInput then DIR_INPUT_FROM else DIR_OUTPUT_TO
  }

  // The row a put of the block writes.
  predicate IsRow(r: AddressActivity, address: Hash, txId: Hash, isInput: bool) {
    r.address == address && r.txId == txId && r.isInput == isInput
  }

  lemma ActivityPutKey(r: AddressActivity, height: u64, address: Hash, h: u64, txId: Hash, isInput: bool)
    ensures ActivityPut(r, height).key == ActivityKey(address, h, txId, Direction(isInput)) <==>
            height == h && IsRow(r, address, txId, isInput)
  {
    hide ActivityKey;
    ActivityKeyInjective(r.address, height, r.txId, Direction(r.isInput), address, h, txId, Direction(isInput));
  }

  lemma ActivityWritten(t: Tables, ev: BlockEvents, address: Hash, h: u64, txId: Hash, isInput: bool)
    ensures ActivityKey(address, h, txId, Direction(isInput)) in ApplyData(t, ev).activity <==>
            || ActivityKey(address, h, txId, Direction(isInput)) in t.activity
            || (ev.height == h && exists r :: r in ev.activity && IsRow(r, address, txId, isInput))
  {
    hide HtlcFold, ActivityKey, ActivityPut, IsRow, Direction;
    var k := ActivityKey(address, h, txId, Direction(isInput));
    var puts := ActivityPuts(ev);
    PutAllOverlays(t.activity, puts);
    hide PutAll;
    if r :| r in ev.activity && IsRow(r, address, txId, isInput) && ev.height == h {
      var i :| 0 <= i < |ev.activity| && ev.activity[i] == r;
      ActivityPutKey(r, ev.height, address, h, txId, isInput);
      assert puts[i].key == k;
    }
    if i :| 0 <= i < |puts| && puts[i].key == k {
      ActivityPutKey(ev.activity[i], ev.height, address, h, txId, isInput);
      assert ev.activity[i] in ev.activity;
    }
  }

  lemma ActivityOfBlock(c: Crate, node: Node, block: Block, height: u64, address: Hash, txId: Hash, isInput: bool)
    requires OwnIds(node)
    ensures (exists r :: r in Flat(ActivityOf(c, node, height), Bodies(node, block.transactions)) && IsRow(r, address, txId, isInput))
            <==> InBlock(node, block, txId) && Touches(node, node.txs[txId].value, address, isInput)
  {
    hide OwnIds, Flat, Bodies, TxActivity, Touches;
    var f := ActivityOf(c, node, height);
    if r :| r in Flat(f, Bodies(node, block.transactions)) && IsRow(r, address, txId, isInput) {
      FromBlock(f, node, block, r);
      var id :| InBlock(node, block, id) && r in f(node.txs[id].value);
      BodyOwnsId(node, id);
      RowTouches(c, node, node.txs[id].value, height, address, isInput);
    }
    if InBlock(node, block, txId) && Touches(node, node.txs[txId].value, address, isInput) {
      BodyOwnsId(node, txId);
      RowTouches(c, node, node.txs[txId].value, height, address, isInput);
      var r :| r in TxActivity(c, node, node.txs[txId].value, height) && r.address == address && r.isInput == isInput;
      assert r in f(node.txs[txId].value);
      FromBlock(f, node, block, r);
    }
  }

  // An address has a timeline row for a transaction at a height exactly when that block
  // holds it and it pays the address, or spends what paid it, as the row's direction says.
  lemma {:induction false} ActivityOnChain(c: Crate, node: Node, n: nat, address: Hash, h: u64, txId: Hash, isInput: bool)
    requires n <= |node.chain| <= U64_MAX && OwnIds(node)
    ensures ActivityKey(address, h, txId, Direction(isInput)) in Straight(c, node, n).activity <==>
            h < n && InBlock(node, node.chain[h], txId) && Touches(node, node.txs[txId].value, address, isInput)
  {
    hide OwnIds, ApplyData, ActivityKey, Touches, Flat, Bodies, InBlock, IsRow;
    if n > 0 {
      ActivityOnChain(c, node, n - 1, address, h, txId, isInput);
      var before := Straight(c, node, n - 1);
      ActivityWritten(before, EventsAt(c, node, n - 1, before.htlcs, 0), address, h, txId, isInput);
      ActivityOfBlock(c, node, node.chain[n - 1], n - 1, address, txId, isInput);
    }
  }

  // The last row of a kind in a stream is the last of its kind in one of the parts.
  lemma {:induction false} LastInPart<A, B>(f: A -> seq<B>, s: seq<A>, p: B -> bool, i: nat) returns (x: A, j: nat)
    requires i < |Flat(f, s)| && p(Flat(f, s)[i]) && forall l :: i < l < |Flat(f, s)| ==> !p(Flat(f, s)[l])
    ensures x in s && j < |f(x)| && f(x)[j] == Flat(f, s)[i] && forall l :: j < l < |f(x)| ==> !p(f(x)[l])
  {
    if i < |f(s[0])| {
      x, j := s[0], i;
      assert forall l :: 0 <= l < |f(s[0])| ==> Flat(f, s)[l] == f(s[0])[l];
    } else {
      var n := |f(s[0])|;
      assert forall l :: 0 <= l < |Flat(f, s[1..])| ==> Flat(f, s[1..])[l] == Flat(f, s)[n + l];
      x, j := LastInPart(f, s[1..], p, i - n);
    }
  }

  function RowKind(address: Hash, txId: Hash, isInput: bool): AddressActivity -> bool {
    (r: AddressActivity) => IsRow(r, address, txId, isInput)
  }

  // What a block leaves at a timeline key: its last row of that kind, or what was there.
  lemma ActivityLast(t: Tables, ev: BlockEvents, address: Hash, h: u64, txId: Hash, isInput: bool) returns (i: int)
    requires ActivityKey(address, h, txId, Direction(isInput)) in ApplyData(t, ev).activity
    ensures var k := ActivityKey(address, h, txId, Direction(isInput));
            var v := ApplyData(t, ev).activity[k];
            if i < 0 then k in t.activity && t.activity[k] == v
            else
              && i < |ev.activity| && ev.height == h && RowKind(address, txId, isInput)(ev.activity[i])
              && v == ActivityValue(ev.activity[i].amount, ev.activity[i].isCoinbase, ev.activity[i].counterparties)
              && forall l :: i < l < |ev.activity| ==> !RowKind(address, txId, isInput)(ev.activity[l])
  {
    hide HtlcFold, ActivityKey, IsRow, Direction;
    var k := ActivityKey(address, h, txId, Direction(isInput));
    var puts := ActivityPuts(ev);
    PutAllLast(t.activity, puts, k);
    forall l | 0 <= l < |puts| ensures puts[l].key == k <==> ev.height == h && IsRow(ev.activity[l], address, txId, isInput) {
      ActivityPutKey(ev.activity[l], ev.height, address, h, txId, isInput);
    }
    if j :| 0 <= j < |puts| && puts[j] == Put(k, PutAll(t.activity, puts)[k]) && forall l :: j < l < |puts| ==> puts[l].key != k {
      i := j;
    } else {
      i := -1;
    }
  }

  // Row `j` of the transaction is the last one of its kind, and `v` is what it says.
  ghost predicate LastRowSays(c: Crate, node: Node, tx: Tx, height: u64, j: nat, address: Hash, isInput: bool, v: ActivityValue) {
    var rows := TxActivity(c, node, tx, height);
    && j < |rows| && rows[j].address == address && rows[j].isInput == isInput
    && (forall l :: j < l < |rows| ==> !(rows[l].address == address && rows[l].isInput == isInput))
    && v.amount == rows[j].amount && v.isCoinbase == rows[j].isCoinbase && v.counterparties == rows[j].counterparties
  }

  lemma ActivityOfLastRow(c: Crate, node: Node, block: Block, height: u64, address: Hash, txId: Hash, isInput: bool, i: nat)
    returns (j: nat)
    requires OwnIds(node)
    requires var rows := Flat(ActivityOf(c, node, height), Bodies(node, block.transactions));
             && i < |rows| && RowKind(address, txId, isInput)(rows[i])
             && forall l :: i < l < |rows| ==> !RowKind(address, txId, isInput)(rows[l])
    ensures InBlock(node, block, txId)
    ensures var r := Flat(ActivityOf(c, node, height), Bodies(node, block.transactions))[i];
            LastRowSays(c, node, node.txs[txId].value, height, j, address, isInput,
                        ActivityValue(r.amount, r.isCoinbase, r.counterparties))
  {
    hide OwnIds, Flat, TxActivity;
    var f := ActivityOf(c, node, height);
    var tx;
    tx, j := LastInPart(f, Bodies(node, block.transactions), RowKind(address, txId, isInput), i);
    FlatIn(BodyAt(node), block.transactions, tx);
    var b :| 0 <= b < |block.transactions| && tx in BodyAt(node)(block.transactions[b]);
    var id := block.transactions[b];
    assert InBlock(node, block, id);
    BodyOwnsId(node, id);
    RowTouches(c, node, tx, height, address, isInput);
    var rows := TxActivity(c, node, tx, height);
    assert rows[j] in rows;
    forall l | j < l < |rows| ensures !(rows[l].address == address && rows[l].isInput == isInput) {
      assert rows[l] in rows && !RowKind(address, txId, isInput)(f(tx)[l]);
    }
  }

  // A timeline row holds what the last of the transaction's rows of that kind says.
  lemma {:induction false} ActivityRowOnChain(c: Crate, node: Node, n: nat, address: Hash, h: u64, txId: Hash, isInput: bool)
    returns (j: nat)
    requires n <= |node.chain| <= U64_MAX && OwnIds(node)
    requires ActivityKey(address, h, txId, Direction(isInput)) in Straight(c, node, n).activity
    ensures h < n && InBlock(node, node.chain[h], txId)
    ensures LastRowSays(c, node, node.txs[txId].value, h, j, address, isInput,
                        Straight(c, node, n).activity[ActivityKey(address, h, txId, Direction(isInput))])
  {
    hide OwnIds, ApplyData, ActivityKey, Flat, Bodies, InBlock, LastRowSays, RowKind, Direction;
    var before := Straight(c, node, n - 1);
    var ev := EventsAt(c, node, n - 1, before.htlcs, 0);
    var i := ActivityLast(before, ev, address, h, txId, isInput);
    if i < 0 {
      j := ActivityRowOnChain(c, node, n - 1, address, h, txId, isInput);
    } else {
      j := ActivityOfLastRow(c, node, node.chain[n - 1], n - 1, address, txId, isInput, i);
    }
  }

  // A row of a transaction is a receipt of one of its outputs or a payment of one of its
  // inputs, faced with the other side.
  lemma RowContent(c: Crate, node: Node, tx: Tx, height: u64, j: nat)
    requires tx.txId.Some? && j < |TxActivity(c, node, tx, height)|
    ensures var r := TxActivity(c, node, tx, height)[j];
            && (!r.isInput ==> r.isCoinbase == tx.isCoinbase
                               && exists i :: 0 <= i < |tx.outputs| && tx.outputs[i].script == r.address && tx.outputs[i].value == r.amount)
            && (r.isInput ==> !r.isCoinbase && !tx.isCoinbase
                              && exists i :: 0 <= i < |tx.inputs| && Held(node, tx.inputs[i], r.address, r.amount))
            && (forall y: Hash :: y in r.counterparties <==> y != r.address && Touches(node, tx, y, !r.isInput))
  {
    hide Extracted, Payments, Distinct, Held, Touches;
    var receipts, payments := Receipts(c, tx, height), Payments(c, node, tx, height);
    var rows := TxActivity(c, node, tx, height);
    var r := rows[j];
    SidesOf(c, node, tx, height);
    if j < |receipts| {
      assert receipts[j] in receipts;
      ReceiptsExactly(c, tx, height, receipts[j]);
      var i: nat :| ReceivesAt(tx, i, receipts[j]);
      assert tx.outputs[i].script == r.address && tx.outputs[i].value == r.amount;
    } else {
      assert payments[j - |receipts|] in payments;
      PaymentsExactly(c, node, tx, height, payments[j - |receipts|]);
      var i: nat :| PaysAt(node, tx, i, payments[j - |receipts|]);
      assert Held(node, tx.inputs[i], r.address, r.amount);
    }
    hide TxActivity;
    forall y: Hash ensures y in r.counterparties <==> y != r.address && Touches(node, tx, y, !r.isInput) {
      CounterpartyTouches(c, node, tx, height, j, y);
    }
  }

  lemma CounterpartyTouches(c: Crate, node: Node, tx: Tx, height: u64, j: nat, y: Hash)
    requires tx.txId.Some? && j < |TxActivity(c, node, tx, height)|
    ensures var r := TxActivity(c, node, tx, height)[j];
            y in r.counterparties <==> y != r.address && Touches(node, tx, y, !r.isInput)
  {
    hide TxActivity, Touches;
    var rows := TxActivity(c, node, tx, height);
    CounterpartiesExactly(c, node, tx, height, j);
    RowTouches(c, node, tx, height, y, !rows[j].isInput);
    if y != rows[j].address && Touches(node, tx, y, !rows[j].isInput) {
      var x :| x in rows && x.address == y && x.isInput == !rows[j].isInput;
      var l :| 0 <= l < |rows| && rows[l] == x;
      assert Faces(rows, j, l);
    }
    if y in rows[j].counterparties {
      var l: nat :| Faces(rows, j, l) && rows[l].address == y;
      assert rows[l] in rows;
    }
  }

  // ---- HTLC rows ------------------------------------------------------------------------

  // The output at an outpoint, in this block, is an HTLC.
  ghost predicate HoldsHtlc(c: Crate, node: Node, block: Block, txId: Hash, i: u32) {
    InBlock(node, block, txId) && HtlcOutput(c, node.txs[txId].value, i)
  }

  ghost predicate HtlcOutput(c: Crate, tx: Tx, i: nat) {
    && i < |tx.outputs| && |tx.outputs[i].script| >= MIN_HTLC_SCRIPT_BYTES
    && c.tryParseHtlc(tx.outputs[i].script).Some?
  }

  lemma LockOfTx(c: Crate, tx: Tx, height: u64, i: u32)
    requires tx.txId.Some? && |tx.outputs| <= 0x1_0000_0000
    ensures (exists r :: r in Extracted(c, tx, height).locks && r.outputIndex == i) <==> HtlcOutput(c, tx, i)
    ensures forall r :: r in Extracted(c, tx, height).locks ==> r.lockTxId == tx.txId.value
  {
    hide Gather;
    var txId := tx.txId.value;
    var f := LocksAt(c, tx, txId, height);
    forall r | r in Extracted(c, tx, height).locks ensures r.lockTxId == txId && HtlcOutput(c, tx, r.outputIndex) {
      GatherIn(|tx.outputs|, f, r);
    }
    if HtlcOutput(c, tx, i) {
      var r := LockOf(c, tx.outputs[i], txId, i, height)[0];
      assert r in f(i);
      GatherIn(|tx.outputs|, f, r);
    }
  }

  lemma LockFromOutput(c: Crate, node: Node, block: Block, height: u64, txId: Hash, i: u32)
    requires OwnIds(node)
    ensures (exists r :: r in Flat(LocksOf(c, height), Bodies(node, block.transactions)) && HtlcKey(r) == PrimaryKey(txId, i))
            <==> HoldsHtlc(c, node, block, txId, i)
  {
    hide OwnIds, Flat, Bodies, Extracted, PrimaryKey, HtlcOutput;
    var f := LocksOf(c, height);
    if r: HtlcRecord :| r in Flat(f, Bodies(node, block.transactions)) && HtlcKey(r) == PrimaryKey(txId, i) {
      PrimaryKeyInjective(r.lockTxId, r.outputIndex, txId, i);
      FromBlock(f, node, block, r);
      var id :| InBlock(node, block, id) && r in f(node.txs[id].value);
      BodyOwnsId(node, id);
      LockOfTx(c, node.txs[id].value, height, i);
    }
    if HoldsHtlc(c, node, block, txId, i) {
      BodyOwnsId(node, txId);
      var tx := node.txs[txId].value;
      LockOfTx(c, tx, height, i);
      var r :| r in Extracted(c, tx, height).locks && r.outputIndex == i;
      assert r in f(tx);
      FromBlock(f, node, block, r);
      assert HtlcKey(r) == PrimaryKey(txId, i);
    }
  }

  lemma HtlcsWritten(t: Tables, ev: BlockEvents, k: Bytes)
    ensures k in ApplyData(t, ev).htlcs <==> k in t.htlcs || exists r :: r in ev.locks && HtlcKey(r) == k
  {
    hide HtlcFold, HtlcKey, PutAll;
    var ops := HtlcOps(ev);
    FoldKeys(t.htlcs, ops, k);
    if r :| r in ev.locks && HtlcKey(r) == k {
      var i :| 0 <= i < |ev.locks| && ev.locks[i] == r;
      assert ops[i] == Lock(r) && ops[i].Key() == k;
    }
    if i :| 0 <= i < |ops| && ops[i].Lock? && ops[i].Key() == k {
      LockOpOf(ev, i);
    }
  }

  // An outpoint has an HTLC row exactly when a block walked holds an HTLC output there.
  lemma {:induction false} HtlcsOnChain(c: Crate, node: Node, n: nat, txId: Hash, i: u32)
    requires n <= |node.chain| <= U64_MAX && OwnIds(node)
    ensures PrimaryKey(txId, i) in Straight(c, node, n).htlcs <==>
            exists h :: 0 <= h < n && HoldsHtlc(c, node, node.chain[h], txId, i)
  {
    hide OwnIds, ApplyData, PrimaryKey, HoldsHtlc, Flat, Bodies;
    if n > 0 {
      HtlcsOnChain(c, node, n - 1, txId, i);
      var before := Straight(c, node, n - 1);
      HtlcsWritten(before, EventsAt(c, node, n - 1, before.htlcs, 0), PrimaryKey(txId, i));
      LockFromOutput(c, node, node.chain[n - 1], n - 1, txId, i);
    }
  }

  // The row holds what the output at its outpoint says: parties, hashlock and timeout as
  // parsed, its value, and the height of a block walked that holds it.
  ghost predicate ShowsOutput(c: Crate, node: Node, h: nat, r: HtlcRecord)
    requires h < |node.chain|
  {
    && InBlock(node, node.chain[h], r.lockTxId) && r.outputIndex < |node.txs[r.lockTxId].value.outputs|
    && var o := node.txs[r.lockTxId].value.outputs[r.outputIndex];
       |o.script| >= 100 && c.tryParseHtlc(o.script) == Some(r.params) && r.amount == o.value
       && r.lockBlockHeight == Some(h) && r.role == Observer
       && (!r.Settled() ==> r.state == (if h > r.params.timeoutHeight then LockedExpired else Locked))
  }

  lemma HtlcRowOnChain(c: Crate, node: Node, n: nat, txId: Hash, i: u32) returns (h: nat)
    requires n <= |node.chain| <= U64_MAX && OwnIds(node) && PrimaryKey(txId, i) in Straight(c, node, n).htlcs
    ensures var r := Straight(c, node, n).htlcs[PrimaryKey(txId, i)];
            h < n && r.lockTxId == txId && r.outputIndex == i && ShowsOutput(c, node, h, r)
  {
    hide OwnIds, EventsOf, Follow, EventList, PrimaryKey, Flat, FirstSpend, Bodies, Extracted;
    var lock, spend;
    h, lock, spend := RowSource(c, node, n, PrimaryKey(txId, i));
    PrimaryKeyInjective(lock.lockTxId, lock.outputIndex, txId, i);
    LockShowsOutput(c, node, h, Straight(c, node, h).htlcs, lock);
    AdvanceKeepsLock(lock, spend);
  }

  lemma LockShowsOutput(c: Crate, node: Node, h: nat, htlcs: map<Bytes, HtlcRecord>, lock: HtlcRecord)
    requires h < |node.chain| <= U64_MAX && OwnIds(node) && lock in EventsAt(c, node, h, htlcs, 0).locks
    ensures ShowsOutput(c, node, h, lock)
  {
    hide OwnIds, Flat, Bodies, Extracted;
    FromBlock(LocksOf(c, h), node, node.chain[h], lock);
    var id :| InBlock(node, node.chain[h], id) && lock in LocksOf(c, h)(node.txs[id].value);
    BodyOwnsId(node, id);
    LocksExactly(c, node.txs[id].value, h, lock);
  }

  // Block `g` spends the outpoint in the given way, at or after the block that created it.
  ghost predicate SettlesIt(c: Crate, node: Node, g: nat, s: HtlcSpend, txId: Hash, i: u32)
    requires g < |node.chain| <= U64_MAX
  {
    && s in Flat(SpendsOf(c, g), Bodies(node, node.chain[g].transactions))
    && s.lockTxId == txId && s.outputIndex == i
    && exists h :: 0 <= h <= g && txId in node.chain[h].transactions
  }

  // Input `j` of transaction `id`, not a coinbase, spends the outpoint, and its witness says how.
  predicate SettlingInput(node: Node, block: Block, id: Hash, j: nat, s: HtlcSpend) {
    && InBlock(node, block, id) && !node.txs[id].value.isCoinbase && j < |node.txs[id].value.inputs|
    && node.txs[id].value.inputs[j] == TxInput(s.lockTxId, s.outputIndex)
    && var wits := node.txs[id].value.witnesses;
       ClassifySpendArm(if j < |wits| then wits[j] else [], id, j % 0x1_0000_0000) == Some(s.arm)
  }

  lemma SpendFromInput(c: Crate, node: Node, block: Block, height: u64, s: HtlcSpend)
    requires OwnIds(node)
    ensures s in Flat(SpendsOf(c, height), Bodies(node, block.transactions)) <==>
            exists id, j: nat :: SettlingInput(node, block, id, j, s)
  {
    hide OwnIds, Flat, Bodies, Extracted, ClassifySpendArm;
    var f := SpendsOf(c, height);
    FromBlock(f, node, block, s);
    if id :| InBlock(node, block, id) && s in f(node.txs[id].value) {
      BodyOwnsId(node, id);
      SpendsExactly(c, node.txs[id].value, height, s);
      var j: nat :| SpendsInput(node.txs[id].value, id, j, s);
      assert SettlingInput(node, block, id, j, s);
    }
    if id, j: nat :| SettlingInput(node, block, id, j, s) {
      BodyOwnsId(node, id);
      SpendsExactly(c, node.txs[id].value, height, s);
      assert SpendsInput(node.txs[id].value, id, j, s);
      assert s in f(node.txs[id].value);
    }
  }

  // The record says that the block settled it by that spend.
  predicate RecordsSpend(r: HtlcRecord, s: HtlcSpend, height: nat) {
    && r.lastIndexedHeight == height
    && match s.arm
       case Claim(p, t, j) =>
         r.state == Claimed && r.reclaim == None && r.claim.Some? && r.claim.value.txId == t && r.claim.value.preimage == p
         && r.claim.value.blockHeight == height && r.claim.value.inputIndex == j
       case Reclaim(t, j) =>
         r.state == Reclaimed && r.claim == None && r.reclaim.Some? && r.reclaim.value.txId == t
         && r.reclaim.value.blockHeight == height && r.reclaim.value.inputIndex == j
  }

  // On a sound chain the row is settled exactly when a classified input walked spends its
  // outpoint, and then records one of them: the outcome, the transaction, the preimage, the
  // input and the height. Otherwise it records no outcome.
  lemma SettledOnChain(c: Crate, node: Node, n: nat, txId: Hash, i: u32)
    requires n <= |node.chain| <= U64_MAX && SoundTxs(node) && PrimaryKey(txId, i) in Straight(c, node, n).htlcs
    ensures var r := Straight(c, node, n).htlcs[PrimaryKey(txId, i)];
            && (r.Settled() <==> exists g, s :: 0 <= g < n && SettlesIt(c, node, g, s, txId, i))
            && (r.Settled() ==> exists g, s :: 0 <= g < n && SettlesIt(c, node, g, s, txId, i) && RecordsSpend(r, s, g))
            && (!r.Settled() ==> r.claim == None && r.reclaim == None)
  {
    hide SoundTxs, OwnIds, EventsOf, Follow, EventList, PrimaryKey, Flat, FirstSpend, Bodies, RecordsSpend;
    var k := PrimaryKey(txId, i);
    SoundParts(node);
    var h, lock, spend := RowSource(c, node, n, k);
    var later := EventList(c, node, n)[h..];
    LocksIn(c, node, h, Straight(c, node, h).htlcs, lock);
    PrimaryKeyInjective(lock.lockTxId, lock.outputIndex, txId, i);
    LocksAreFresh(c, node, node.chain[h], h, Straight(c, node, h).htlcs);
    EventsNames(c, node, node.chain[h], h, Straight(c, node, h).htlcs, 0);
    AdvanceKeepsLock(lock, spend);
    FirstSpendIsSpend(Flat(SpendOps, later), k);
    FirstSpendFinds(Flat(SpendOps, later), k);
    if spend.Some? {
      var g := SpendInList(c, node, n, h, spend.value);
      var s := spend.value.spend;
      PrimaryKeyInjective(s.lockTxId, s.outputIndex, txId, i);
      SpendsOfEvents(c, node, g, s);
      assert SettlesIt(c, node, g, s, txId, i);
      SpendRecorded(lock, s, g);
    }
    if g, s :| 0 <= g < n && SettlesIt(c, node, g, s, txId, i) {
      var h' :| 0 <= h' <= g && txId in node.chain[h'].transactions;
      if h' < h {
        NotInBoth(node, h', h, txId);
      }
      if h < h' {
        NotInBoth(node, h, h', txId);
      }
      SpendsOfEvents(c, node, g, s);
      SpendFound(c, node, n, h, g, s);
    }
  }

  lemma SpendRecorded(lock: HtlcRecord, s: HtlcSpend, height: u64)
    requires lock.claim.None? && lock.reclaim.None?
    ensures RecordsSpend(Advance(lock, s.arm, height), s, height)
  {
    AdvanceWrites(lock, s.arm, height);
  }

  lemma SpendsOfEvents(c: Crate, node: Node, g: nat, s: HtlcSpend)
    requires g < |node.chain| <= U64_MAX
    ensures s in EventsAt(c, node, g, Straight(c, node, g).htlcs, 0).spends <==>
            s in Flat(SpendsOf(c, g), Bodies(node, node.chain[g].transactions))
  {}

  // A spend of a block is found in the stream of the blocks from any earlier one on.
  lemma SpendFound(c: Crate, node: Node, n: nat, from: nat, g: nat, s: HtlcSpend)
    requires from <= g < n <= |node.chain| <= U64_MAX
    requires s in EventsAt(c, node, g, Straight(c, node, g).htlcs, 0).spends
    ensures FirstSpend(Flat(SpendOps, EventList(c, node, n)[from..]), SpendKey(s)).Some?
  {
    hide EventsOf, Follow, EventList, Flat, FirstSpend, SpendKey;
    var bs := EventList(c, node, n)[from..];
    EventListAt(c, node, n, g);
    var ev := bs[g - from];
    var j :| 0 <= j < |ev.spends| && ev.spends[j] == s;
    var op := SpendOps(ev)[j];
    assert op in SpendOps(bs[g - from]);
    FlatIn(SpendOps, bs, op);
    FirstSpendFinds(Flat(SpendOps, bs), SpendKey(s));
    var x :| 0 <= x < |Flat(SpendOps, bs)| && Flat(SpendOps, bs)[x] == op;
    assert op.Key() == SpendKey(s);
  }

  // ---- Settlement rows --------------------------------------------------------------------

  // Block `h` spends HTLC `i` of an earlier block's transaction, and the address is the
  // sender's or the receiver's.
  ghost predicate PartySettles(c: Crate, node: Node, h: nat, s: HtlcSpend, contract: Hash, address: Hash)
    requires h < |node.chain| <= U64_MAX
  {
    && s in Flat(SpendsOf(c, h), Bodies(node, node.chain[h].transactions))
    && exists g :: 0 <= g < h && HoldsHtlc(c, node, node.chain[g], s.lockTxId, s.outputIndex)
                   && PartyOf(c, node.txs[s.lockTxId].value.outputs[s.outputIndex].script, contract, address)
  }

  predicate PartyOf(c: Crate, script: Bytes, contract: Hash, address: Hash) {
    match c.tryParseHtlc(script)
    case Some(p) => c.contractHash(p) == contract && (c.addressOf(p.sender) == address || c.addressOf(p.receiver) == address)
    case None => false
  }

  // What a block of a sound chain finds when it spends a held HTLC: an open record with the
  // parties its output names.
  lemma PeekedRecord(c: Crate, node: Node, h: nat, s: HtlcSpend) returns (g: nat)
    requires h < |node.chain| <= U64_MAX && SoundTxs(node)
    requires s in Flat(SpendsOf(c, h), Bodies(node, node.chain[h].transactions)) && SpendKey(s) in Straight(c, node, h).htlcs
    ensures var r := Straight(c, node, h).htlcs[SpendKey(s)];
            && r.claim.None? && r.reclaim.None? && r.lockTxId == s.lockTxId && r.outputIndex == s.outputIndex
            && g < h && HoldsHtlc(c, node, node.chain[g], s.lockTxId, s.outputIndex)
            && c.tryParseHtlc(node.txs[s.lockTxId].value.outputs[s.outputIndex].script) == Some(r.params)
  {
    hide SoundTxs, OwnIds, Flat, Bodies, Follow, PrimaryKey;
    SoundParts(node);
    FollowedLifecycle(c, node, h);
    SpendsFindOpenRows(c, node, h, s);
    g := HtlcRowOnChain(c, node, h, s.lockTxId, s.outputIndex);
  }

  lemma SettledParties(c: Crate, node: Node, h: nat, contract: Hash, address: Hash, txId: Hash)
    requires h < |node.chain| <= U64_MAX && SoundTxs(node)
    ensures (exists row :: row in EventsAt(c, node, h, Straight(c, node, h).htlcs, 0).settlements
                           && ContractKey(row) == SettlementKey(contract, address, h, txId))
            <==> exists s: HtlcSpend :: s.lockTxId == txId && PartySettles(c, node, h, s, contract, address)
  {
    hide SoundTxs, OwnIds, Flat, Bodies, Follow, SettlementKey, SpendKey, HoldsHtlc, SettledBy;
    var htlcs := Straight(c, node, h).htlcs;
    var spends := EventsAt(c, node, h, htlcs, 0).spends;
    if row :| row in EventsAt(c, node, h, htlcs, 0).settlements && ContractKey(row) == SettlementKey(contract, address, h, txId) {
      SettlementKeyInjective(row.contractHash, row.observerAddress, row.blockHeight, row.txId, contract, address, h, txId);
      FlatIn(SettledBy(c, htlcs, h), spends, row);
      var i :| 0 <= i < |spends| && row in SettledBy(c, htlcs, h)(spends[i]);
      SettlementRowsExactly(c, htlcs, h, spends[i], row);
      assert spends[i] in spends;
      var g := PeekedRecord(c, node, h, spends[i]);
      assert PartySettles(c, node, h, spends[i], contract, address);
    }
    if s: HtlcSpend :| s.lockTxId == txId && PartySettles(c, node, h, s, contract, address) {
      SettledPartyRow(c, node, h, s, contract, address);
    }
  }

  lemma SettledPartyRow(c: Crate, node: Node, h: nat, s: HtlcSpend, contract: Hash, address: Hash)
    requires h < |node.chain| <= U64_MAX && SoundTxs(node) && PartySettles(c, node, h, s, contract, address)
    ensures exists row :: row in EventsAt(c, node, h, Straight(c, node, h).htlcs, 0).settlements
                          && ContractKey(row) == SettlementKey(contract, address, h, s.lockTxId)
  {
    hide SoundTxs, OwnIds, Flat, Bodies, Follow, SettlementKey, PrimaryKey, HoldsHtlc, SettledBy;
    var htlcs := Straight(c, node, h).htlcs;
    var spends := EventsAt(c, node, h, htlcs, 0).spends;
    SoundParts(node);
    HtlcsOnChain(c, node, h, s.lockTxId, s.outputIndex);
    var g := PeekedRecord(c, node, h, s);
    BothPartiesSettle(c, htlcs, h, s);
    var row :| row in SettledBy(c, htlcs, h)(s) && row.observerAddress == address;
    SettlementRowsExactly(c, htlcs, h, s, row);
    FlatIn(SettledBy(c, htlcs, h), spends, row);
  }

  lemma SettlementsWritten(t: Tables, ev: BlockEvents, key: Bytes)
    ensures key in ApplyData(t, ev).settlements <==>
            key in t.settlements || exists row :: row in ev.settlements && ContractKey(row) == key
  {
    hide HtlcFold, ContractKey;
    var puts := SettlementPuts(ev);
    PutAllOverlays(t.settlements, puts);
    hide PutAll;
    if row :| row in ev.settlements && ContractKey(row) == key {
      var i :| 0 <= i < |ev.settlements| && ev.settlements[i] == row;
      assert puts[i].key == key;
    }
    if i :| 0 <= i < |puts| && puts[i].key == key {
      assert ev.settlements[i] in ev.settlements;
    }
  }

  lemma SettlementHeightOf(c: Crate, node: Node, h: nat, htlcs: map<Bytes, HtlcRecord>, row: SettlementRecord,
                           contract: Hash, address: Hash, height: u64, txId: Hash)
    requires h < |node.chain| <= U64_MAX && row in EventsAt(c, node, h, htlcs, 0).settlements
    requires ContractKey(row) == SettlementKey(contract, address, height, txId)
    ensures height == h
  {
    hide Flat, Bodies, SettlementKey;
    SettlementsOfBlock(c, htlcs, h, EventsAt(c, node, h, htlcs, 0).spends, row);
    SettlementKeyInjective(row.contractHash, row.observerAddress, row.blockHeight, row.txId, contract, address, height, txId);
  }

  // On a sound chain an address has a settlement row under a contract, a height and a
  // transaction exactly when that block, once walked, spends an HTLC that an earlier one
  // locked in that transaction and the address is one of its two parties.
  lemma {:induction false} SettlementsOnChain(c: Crate, node: Node, n: nat, contract: Hash, address: Hash, h: u64, txId: Hash)
    requires n <= |node.chain| <= U64_MAX && SoundTxs(node)
    ensures SettlementKey(contract, address, h, txId) in Straight(c, node, n).settlements <==>
            h < n && exists s: HtlcSpend :: s.lockTxId == txId && PartySettles(c, node, h, s, contract, address)
  {
    hide SoundTxs, EventsOf, ApplyData, SettlementKey, PartySettles;
    if n > 0 {
      SettlementsOnChain(c, node, n - 1, contract, address, h, txId);
      var before := Straight(c, node, n - 1);
      var ev := EventsAt(c, node, n - 1, before.htlcs, 0);
      var key := SettlementKey(contract, address, h, txId);
      SettlementsWritten(before, ev, key);
      SettledParties(c, node, n - 1, contract, address, txId);
      if row :| row in ev.settlements && ContractKey(row) == key {
        SettlementHeightOf(c, node, n - 1, before.htlcs, row, contract, address, h, txId);
      }
    }
  }

  // ---- Datum rows ---------------------------------------------------------------------------

  // The output shows a datum of sixteen bytes, or commits to one it does not show.
  predicate SignalsDatum(o: TxOutput) {
    (o.datum.Some? && |o.datum.value| == 16) || (o.datum.None? && o.datumHash.Some?)
  }

  ghost predicate SignalledIn(node: Node, block: Block, txId: Hash, i: u32) {
    && InBlock(node, block, txId) && i < |node.txs[txId].value.outputs|
    && SignalsDatum(node.txs[txId].value.outputs[i])
  }

  // The row is made by that output in block `h`.
  ghost predicate DatumRowAt(node: Node, h: nat, txId: Hash, i: u32, d: OutputDatumRecord)
    requires h < |node.chain|
  {
    && InBlock(node, node.chain[h], txId) && i < |node.txs[txId].value.outputs|
    && ShowsDatum(node.txs[txId].value.outputs[i], OutputDatum(txId, i, d.quoteId, d.unhonorable)) && d.blockHeight == h
  }

  lemma DatumLast(t: Tables, ev: BlockEvents, k: Bytes)
    ensures k in ApplyData(t, ev).datums <==> k in t.datums || exists d :: d in ev.outputDatums && DatumKey(d) == k
    ensures k in ApplyData(t, ev).datums ==>
              var v := ApplyData(t, ev).datums[k];
              || (k in t.datums && t.datums[k] == v)
              || exists d :: d in ev.outputDatums && DatumKey(d) == k && v == OutputDatumRecord(d.quoteId, d.unhonorable, ev.height)
  {
    hide HtlcFold, DatumKey;
    var puts := DatumPuts(ev);
    PutAllOverlays(t.datums, puts);
    if k in PutAll(t.datums, puts) {
      PutAllLast(t.datums, puts, k);
    }
    hide PutAll;
    if d :| d in ev.outputDatums && DatumKey(d) == k {
      var i :| 0 <= i < |ev.outputDatums| && ev.outputDatums[i] == d;
      assert puts[i].key == k;
    }
    forall i | 0 <= i < |puts| ensures ev.outputDatums[i] in ev.outputDatums && DatumKey(ev.outputDatums[i]) == puts[i].key {
    }
  }

  lemma DatumOutputs(c: Crate, node: Node, block: Block, height: u64, d: OutputDatum)
    requires OwnIds(node)
    ensures d in Flat(DatumsOf(c, height), Bodies(node, block.transactions)) <==>
            InBlock(node, block, d.txId) && d.outputIndex < |node.txs[d.txId].value.outputs|
            && ShowsDatum(node.txs[d.txId].value.outputs[d.outputIndex], d)
  {
    hide OwnIds, Flat, Bodies, Extracted, ShowsDatum;
    var f := DatumsOf(c, height);
    FromBlock(f, node, block, d);
    if d in Flat(f, Bodies(node, block.transactions)) {
      DatumsOfBlock(c, node, block, height, d);
      BodyOwnsId(node, d.txId);
      DatumsExactly(c, node.txs[d.txId].value, height, d);
    }
    if InBlock(node, block, d.txId) {
      BodyOwnsId(node, d.txId);
      DatumsExactly(c, node.txs[d.txId].value, height, d);
      assert f(node.txs[d.txId].value) == Extracted(c, node.txs[d.txId].value, height).outputDatums;
    }
  }

  lemma DatumKeyTells(d: OutputDatum, txId: Hash, i: u32)
    ensures DatumKey(d) == PrimaryKey(txId, i) <==> d.txId == txId && d.outputIndex == i
  {
    PrimaryKeyInjective(d.txId, d.outputIndex, txId, i);
  }

  lemma DatumsOfKey(c: Crate, node: Node, h: nat, htlcs: map<Bytes, HtlcRecord>, txId: Hash, i: u32)
    requires h < |node.chain| <= U64_MAX && OwnIds(node)
    ensures var ev := EventsAt(c, node, h, htlcs, 0);
            && ((exists d :: d in ev.outputDatums && DatumKey(d) == PrimaryKey(txId, i)) <==> SignalledIn(node, node.chain[h], txId, i))
            && forall d :: d in ev.outputDatums && DatumKey(d) == PrimaryKey(txId, i) ==>
                 DatumRowAt(node, h, txId, i, OutputDatumRecord(d.quoteId, d.unhonorable, h))
  {
    hide OwnIds, PrimaryKey, Flat, Bodies, DatumKey, ShowsDatum, SignalsDatum;
    var ev := EventsAt(c, node, h, htlcs, 0);
    forall d | d in ev.outputDatums && DatumKey(d) == PrimaryKey(txId, i)
      ensures DatumRowAt(node, h, txId, i, OutputDatumRecord(d.quoteId, d.unhonorable, h)) && SignalledIn(node, node.chain[h], txId, i)
    {
      DatumKeyTells(d, txId, i);
      DatumOutputs(c, node, node.chain[h], h, d);
      SignalShown(node.txs[txId].value.outputs[i], d);
    }
    if SignalledIn(node, node.chain[h], txId, i) {
      var d := SignalMade(node.txs[txId].value.outputs[i], txId, i);
      DatumKeyTells(d, txId, i);
      DatumOutputs(c, node, node.chain[h], h, d);
    }
  }

  // An outpoint has a datum row exactly when an output walked signals one there, and the row
  // says which quote it shows, or that it shows none, and at which height.
  lemma {:induction false} DatumsOnChain(c: Crate, node: Node, n: nat, txId: Hash, i: u32)
    requires n <= |node.chain| <= U64_MAX && OwnIds(node)
    ensures var k := PrimaryKey(txId, i);
            && (k in Straight(c, node, n).datums <==> exists h :: 0 <= h < n && SignalledIn(node, node.chain[h], txId, i))
            && (k in Straight(c, node, n).datums ==>
                exists h :: 0 <= h < n && DatumRowAt(node, h, txId, i, Straight(c, node, n).datums[k]))
  {
    hide OwnIds, ApplyData, PrimaryKey, DatumKey, EventsOf, SignalledIn, DatumRowAt;
    if n > 0 {
      DatumsOnChain(c, node, n - 1, txId, i);
      var before := Straight(c, node, n - 1);
      EventsNames(c, node, node.chain[n - 1], n - 1, before.htlcs, 0);
      DatumLast(before, EventsAt(c, node, n - 1, before.htlcs, 0), PrimaryKey(txId, i));
      DatumsOfKey(c, node, n - 1, before.htlcs, txId, i);
    }
  }

  lemma SignalShown(o: TxOutput, d: OutputDatum)
    requires ShowsDatum(o, d)
    ensures SignalsDatum(o)
  {}

  lemma SignalMade(o: TxOutput, txId: Hash, i: u32) returns (d: OutputDatum)
    requires SignalsDatum(o)
    ensures ShowsDatum(o, d) && d.txId == txId && d.outputIndex == i
  {
    d := if o.datum.Some? then OutputDatum(txId, i, Some(o.datum.value), false) else OutputDatum(txId, i, None, true);
  }
}
