/** The byte layout of every table key and of the two paging cursors. */
module Keys {
  import opened ByteStrings
  import opened Records

  const DIR_OUTPUT_TO: byte := 0x01
  const DIR_INPUT_FROM: byte := 0x02

  // ---- Encoders: each contract says what the readers slice back out ---------

  function PrimaryKey(txId: Hash, outputIndex: u32): (k: Bytes)
    ensures |k| == 36 && k[..32] == txId && FromBE(k[32..]) == outputIndex
  {
    Widths();
    BERoundTrip(outputIndex, 4);
    txId + BE(outputIndex, 4)
  }

  function AddressHeightKey(address: Hash, height: u64, txId: Hash, outputIndex: u32): (k: Bytes)
    ensures |k| == 76 && k[..32] == address && FromBE(k[32..40]) == height
    ensures k[40..] == PrimaryKey(txId, outputIndex) && k[40..72] == txId && k[72..] == k[40..][32..]
  {
    Widths();
    BERoundTrip(height, 8);
    var k := address + BE(height, 8) + PrimaryKey(txId, outputIndex);
    assert k[32..40] == BE(height, 8);
    assert k[40..72] == PrimaryKey(txId, outputIndex)[..32];
    k
  }

  function HashlockKey(hashLock: Hash, txId: Hash, outputIndex: u32): (k: Bytes)
    ensures |k| == 68 && k[..32] == hashLock && k[32..] == PrimaryKey(txId, outputIndex)
  {
    hashLock + PrimaryKey(txId, outputIndex)
  }

  function StateByte(state: HtlcState): byte
  {
    match state
    case Locked => 0x00
    case LockedExpired => 0x01
    case Claimed => 0x02
    case Reclaimed => 0x03
    case Unknown => 0x04
  }

  function StateKey(state: HtlcState, height: u64, txId: Hash, outputIndex: u32): (k: Bytes)
    ensures |k| == 45 && k[0] == StateByte(state) && FromBE(k[1..9]) == height
    ensures k[9..] == PrimaryKey(txId, outputIndex)
  {
    Widths();
    BERoundTrip(height, 8);
    var k := [StateByte(state)] + BE(height, 8) + PrimaryKey(txId, outputIndex);
    assert k[1..9] == BE(height, 8);
    k
  }

  function BlockKey(height: u64): (k: Bytes)
    ensures |k| == 8 && FromBE(k) == height
  {
    Widths();
    BERoundTrip(height, 8);
    BE(height, 8)
  }

  function ActivityKey(address: Hash, height: u64, txId: Hash, dir: byte): (k: Bytes)
    ensures |k| == 73 && k[..32] == address && FromBE(k[32..40]) == height && k[40..72] == txId && k[72] == dir
  {
    Widths();
    BERoundTrip(height, 8);
    var k := address + BE(height, 8) + txId + [dir];
    assert k[32..40] == BE(height, 8);
    k
  }

  // Both settlement tables: the contract-keyed one puts the contract first, its mirror the address.
  function SettlementKey(first: Hash, second: Hash, height: u64, txId: Hash): (k: Bytes)
    ensures |k| == 104 && k[..32] == first && k[32..64] == second && FromBE(k[64..72]) == height && k[72..] == txId
  {
    Widths();
    BERoundTrip(height, 8);
    var k := first + second + BE(height, 8) + txId;
    assert k[64..72] == BE(height, 8);
    k
  }

  function QuoteKey(quoteId: QuoteId, txId: Hash, outputIndex: u32): (k: Bytes)
    ensures |k| == 52 && k[..16] == quoteId && k[16..] == PrimaryKey(txId, outputIndex)
    ensures k[16..48] == txId && FromBE(k[48..]) == outputIndex
  {
    var k := quoteId + PrimaryKey(txId, outputIndex);
    assert k[16..48] == PrimaryKey(txId, outputIndex)[..32];
    assert k[48..] == PrimaryKey(txId, outputIndex)[32..];
    k
  }

  // ---- Keys of rows ---------------------------------------------------------

  function HtlcKey(r: HtlcRecord): Bytes {
    PrimaryKey(r.lockTxId, r.outputIndex)
  }

  function SenderKey(r: HtlcRecord): Bytes {
    AddressHeightKey(r.params.sender, r.LockHeight(), r.lockTxId, r.outputIndex)
  }

  function ReceiverKey(r: HtlcRecord): Bytes {
    AddressHeightKey(r.params.receiver, r.LockHeight(), r.lockTxId, r.outputIndex)
  }

  function RecordHashlockKey(r: HtlcRecord): Bytes {
    HashlockKey(r.params.hashLock, r.lockTxId, r.outputIndex)
  }

  function RecordStateKey(r: HtlcRecord): Bytes {
    StateKey(r.state, r.LockHeight(), r.lockTxId, r.outputIndex)
  }

  function SpendKey(s: HtlcSpend): Bytes {
    PrimaryKey(s.lockTxId, s.outputIndex)
  }

  function SpentByKey(s: SpentByEntry): Bytes {
    PrimaryKey(s.prevTxId, s.outputIndex)
  }

  function ContractKey(s: SettlementRecord): Bytes {
    SettlementKey(s.contractHash, s.observerAddress, s.blockHeight, s.txId)
  }

  function MirrorKey(s: SettlementRecord): Bytes {
    SettlementKey(s.observerAddress, s.contractHash, s.blockHeight, s.txId)
  }

  // The reader's side of the mirror: swap the two leading addresses.
  function SwapKey(k: Bytes): Bytes
    requires |k| == 104
  {
    k[32..64] + k[..32] + k[64..72] + k[72..]
  }

  // ---- Injectivity ----------------------------------------------------------

  lemma PrimaryKeyInjective(t: Hash, i: u32, t': Hash, i': u32)
    ensures PrimaryKey(t, i) == PrimaryKey(t', i') <==> t == t' && i == i'
  {}

  // The bytes that stand for the states and the directions.
  lemma StateAndDirectionBytes()
    ensures StateByte(Locked) == 0 && StateByte(LockedExpired) == 1 && StateByte(Claimed) == 2
    ensures StateByte(Reclaimed) == 3 && StateByte(Unknown) == 4
    ensures DIR_OUTPUT_TO == 1 && DIR_INPUT_FROM == 2
  {}

  // The keys of a record, field by field; without a lock height it sorts last.
  lemma RecordKeys(r: HtlcRecord)
    ensures var h := match r.lockBlockHeight case Some(height) => height case None => 0xFFFF_FFFF_FFFF_FFFF;
            && HtlcKey(r) == PrimaryKey(r.lockTxId, r.outputIndex)
            && SenderKey(r) == AddressHeightKey(r.params.sender, h, r.lockTxId, r.outputIndex)
            && ReceiverKey(r) == AddressHeightKey(r.params.receiver, h, r.lockTxId, r.outputIndex)
            && RecordHashlockKey(r) == HashlockKey(r.params.hashLock, r.lockTxId, r.outputIndex)
            && RecordStateKey(r) == StateKey(r.state, h, r.lockTxId, r.outputIndex)
  {}

  lemma AddressHeightKeyInjective(a: Hash, h: u64, t: Hash, i: u32, a': Hash, h': u64, t': Hash, i': u32)
    ensures AddressHeightKey(a, h, t, i) == AddressHeightKey(a', h', t', i') <==> a == a' && h == h' && t == t' && i == i'
  {
    PrimaryKeyInjective(t, i, t', i');
  }

  lemma HashlockKeyInjective(a: Hash, t: Hash, i: u32, a': Hash, t': Hash, i': u32)
    ensures HashlockKey(a, t, i) == HashlockKey(a', t', i') <==> a == a' && t == t' && i == i'
  {
    PrimaryKeyInjective(t, i, t', i');
  }

  lemma StateKeyInjective(s: HtlcState, h: u64, t: Hash, i: u32, s': HtlcState, h': u64, t': Hash, i': u32)
    ensures StateKey(s, h, t, i) == StateKey(s', h', t', i') <==> s == s' && h == h' && t == t' && i == i'
  {
    PrimaryKeyInjective(t, i, t', i');
  }

  lemma ActivityKeyInjective(a: Hash, h: u64, t: Hash, d: byte, a': Hash, h': u64, t': Hash, d': byte)
    ensures ActivityKey(a, h, t, d) == ActivityKey(a', h', t', d') <==> a == a' && h == h' && t == t' && d == d'
  {}

  lemma SettlementKeyInjective(a: Hash, b: Hash, h: u64, t: Hash, a': Hash, b': Hash, h': u64, t': Hash)
    ensures SettlementKey(a, b, h, t) == SettlementKey(a', b', h', t') <==> a == a' && b == b' && h == h' && t == t'
  {}

  lemma QuoteKeyInjective(q: QuoteId, t: Hash, i: u32, q': QuoteId, t': Hash, i': u32)
    ensures QuoteKey(q, t, i) == QuoteKey(q', t', i') <==> q == q' && t == t' && i == i'
  {}

  lemma MirrorSwap(s: SettlementRecord)
    ensures SwapKey(MirrorKey(s)) == ContractKey(s) && SwapKey(ContractKey(s)) == MirrorKey(s)
  {
    Widths();
    BERoundTrip(s.blockHeight, 8);
    var m := s.observerAddress + s.contractHash + BE(s.blockHeight, 8) + s.txId;
    var c := s.contractHash + s.observerAddress + BE(s.blockHeight, 8) + s.txId;
    assert MirrorKey(s) == m && ContractKey(s) == c;
    assert m[64..72] == BE(s.blockHeight, 8) == c[64..72];
    assert SwapKey(m) == c && SwapKey(c) == m;
  }

  // ---- Byte order is tuple order --------------------------------------------

  // What `list_htlcs` sorts and pages by.
  datatype HtlcCursor = HtlcCursor(lockHeight: u64, lockTxId: Hash, outputIndex: u32)

  // What settlements and history sort and page by.
  datatype RowCursor = RowCursor(height: u64, txId: Hash)

  predicate HtlcCursorLt(a: HtlcCursor, b: HtlcCursor) {
    a.lockHeight < b.lockHeight
    || (a.lockHeight == b.lockHeight
        && (LexLt(a.lockTxId, b.lockTxId) || (a.lockTxId == b.lockTxId && a.outputIndex < b.outputIndex)))
  }

  predicate RowCursorLt(a: RowCursor, b: RowCursor) {
    a.height < b.height || (a.height == b.height && LexLt(a.txId, b.txId))
  }

  lemma HeightFirst(h: u64, rest: Bytes, h': u64, rest': Bytes)
    ensures LexLt(BE(h, 8) + rest, BE(h', 8) + rest') <==> h < h' || (h == h' && LexLt(rest, rest'))
  {
    Widths();
    BEOrder(h, h', 8);
    LexConcat(BE(h, 8), rest, BE(h', 8), rest');
  }

  lemma UnderPrefix(a: Bytes, rest: Bytes, rest': Bytes)
    ensures LexLt(a + rest, a + rest') <==> LexLt(rest, rest')
  {
    LexIrreflexive(a);
    LexConcat(a, rest, a, rest');
  }

  lemma PrimaryKeyOrder(t: Hash, i: u32, t': Hash, i': u32)
    ensures LexLt(PrimaryKey(t, i), PrimaryKey(t', i')) <==> LexLt(t, t') || (t == t' && i < i')
  {
    Widths();
    BEOrder(i, i', 4);
    LexConcat(t, BE(i, 4), t', BE(i', 4));
  }

  lemma OneByte(d: byte, d': byte)
    ensures LexLt([d], [d']) <==> d < d'
  {}

  lemma ActivityKeyParts(a: Hash, h: u64, t: Hash, d: byte)
    ensures ActivityKey(a, h, t, d) == a + (BE(h, 8) + (t + [d]))
  {
    hide LexLt, BE, FromBE;
  }

  // Rows of one address are stored in the order of their heights, then transactions, then direction.
  lemma ActivityKeyOrder(a: Hash, h: u64, t: Hash, d: byte, h': u64, t': Hash, d': byte)
    ensures LexLt(ActivityKey(a, h, t, d), ActivityKey(a, h', t', d')) <==>
            RowCursorLt(RowCursor(h, t), RowCursor(h', t')) || (h == h' && t == t' && d < d')
  {
    hide LexLt, BE, FromBE;
    OneByte(d, d');
    ActivityKeyParts(a, h, t, d);
    ActivityKeyParts(a, h', t', d');
    hide ActivityKey;
    UnderPrefix(a, BE(h, 8) + (t + [d]), BE(h', 8) + (t' + [d']));
    HeightFirst(h, t + [d], h', t' + [d']);
    LexConcat(t, [d], t', [d']);
  }

  // Rows of one (contract, address) pair are stored in the order of their heights, then transactions.
  lemma SettlementKeyOrder(a: Hash, b: Hash, h: u64, t: Hash, h': u64, t': Hash)
    ensures LexLt(SettlementKey(a, b, h, t), SettlementKey(a, b, h', t')) <==>
            RowCursorLt(RowCursor(h, t), RowCursor(h', t'))
  {
    hide LexLt, BE, FromBE;
    assert SettlementKey(a, b, h, t) == (a + b) + (BE(h, 8) + t);
    assert SettlementKey(a, b, h', t') == (a + b) + (BE(h', 8) + t');
    UnderPrefix(a + b, BE(h, 8) + t, BE(h', 8) + t');
    HeightFirst(h, t, h', t');
  }

  // Within one sender (or receiver) the index is in listing order.
  lemma AddressHeightKeyOrder(a: Hash, h: u64, t: Hash, i: u32, h': u64, t': Hash, i': u32)
    ensures LexLt(AddressHeightKey(a, h, t, i), AddressHeightKey(a, h', t', i')) <==>
            HtlcCursorLt(HtlcCursor(h, t, i), HtlcCursor(h', t', i'))
  {
    hide LexLt, BE, FromBE;
    assert AddressHeightKey(a, h, t, i) == a + (BE(h, 8) + PrimaryKey(t, i));
    assert AddressHeightKey(a, h', t', i') == a + (BE(h', 8) + PrimaryKey(t', i'));
    UnderPrefix(a, BE(h, 8) + PrimaryKey(t, i), BE(h', 8) + PrimaryKey(t', i'));
    HeightFirst(h, PrimaryKey(t, i), h', PrimaryKey(t', i'));
    PrimaryKeyOrder(t, i, t', i');
  }

  // Both cursor orders are total, so a page boundary is a point of the order.
  lemma HtlcCursorTotal(a: HtlcCursor, b: HtlcCursor, c: HtlcCursor)
    ensures !HtlcCursorLt(a, a)
    ensures HtlcCursorLt(a, b) && HtlcCursorLt(b, c) ==> HtlcCursorLt(a, c)
    ensures HtlcCursorLt(a, b) || a == b || HtlcCursorLt(b, a)
  {
    LexIrreflexive(a.lockTxId);
    LexTotal(a.lockTxId, b.lockTxId);
    if LexLt(a.lockTxId, b.lockTxId) && LexLt(b.lockTxId, c.lockTxId) {
      LexTransitive(a.lockTxId, b.lockTxId, c.lockTxId);
    }
  }

  lemma RowCursorTotal(a: RowCursor, b: RowCursor, c: RowCursor)
    ensures !RowCursorLt(a, a)
    ensures RowCursorLt(a, b) && RowCursorLt(b, c) ==> RowCursorLt(a, c)
    ensures RowCursorLt(a, b) || a == b || RowCursorLt(b, a)
  {
    LexIrreflexive(a.txId);
    LexTotal(a.txId, b.txId);
    if LexLt(a.txId, b.txId) && LexLt(b.txId, c.txId) {
      LexTransitive(a.txId, b.txId, c.txId);
    }
  }

  // ---- Cursor payloads ------------------------------------------------------

  function EncodeHtlcCursor(c: HtlcCursor): (s: Bytes)
    ensures |s| == 44 && s[..8] == BE(c.lockHeight, 8) && s[8..40] == c.lockTxId && s[40..] == BE(c.outputIndex, 4)
  {
    BE(c.lockHeight, 8) + c.lockTxId + BE(c.outputIndex, 4)
  }

  function DecodeHtlcCursor(s: Bytes): Result<HtlcCursor> {
    if |s| != 44 then Err
    else
      Widths();
      Ok(HtlcCursor(FromBE(s[..8]), s[8..40], FromBE(s[40..])))
  }

  function EncodeRowCursor(c: RowCursor): (s: Bytes)
    ensures |s| == 40 && s[..8] == BE(c.height, 8) && s[8..] == c.txId
  {
    BE(c.height, 8) + c.txId
  }

  function DecodeRowCursor(s: Bytes): Result<RowCursor> {
    if |s| != 40 then Err
    else
      Widths();
      Ok(RowCursor(FromBE(s[..8]), s[8..]))
  }

  // A cursor survives encoding, and a payload decodes exactly when it has the length of one.
  lemma HtlcCursorRoundTrip(c: HtlcCursor)
    ensures DecodeHtlcCursor(EncodeHtlcCursor(c)) == Ok(c)
  {
    Widths();
    BERoundTrip(c.lockHeight, 8);
    BERoundTrip(c.outputIndex, 4);
    hide BE, FromBE;
    var e := EncodeHtlcCursor(c);
    assert e[..8] == BE(c.lockHeight, 8) && e[8..40] == c.lockTxId && e[40..] == BE(c.outputIndex, 4);
  }

  lemma HtlcPayloadRoundTrip(s: Bytes)
    ensures DecodeHtlcCursor(s).Ok? <==> |s| == 44
    ensures DecodeHtlcCursor(s).Ok? ==> EncodeHtlcCursor(DecodeHtlcCursor(s).value) == s
  {
    Widths();
    if |s| == 44 {
      FromBERoundTrip(s[..8]);
      FromBERoundTrip(s[40..]);
      hide BE, FromBE;
      assert s == s[..8] + s[8..40] + s[40..];
    }
  }

  lemma RowCursorRoundTrip(c: RowCursor)
    ensures DecodeRowCursor(EncodeRowCursor(c)) == Ok(c)
  {
    Widths();
    BERoundTrip(c.height, 8);
    hide BE, FromBE;
    var e := EncodeRowCursor(c);
    assert e[..8] == BE(c.height, 8) && e[8..] == c.txId;
  }

  lemma RowPayloadRoundTrip(s: Bytes)
    ensures DecodeRowCursor(s).Ok? <==> |s| == 40
    ensures DecodeRowCursor(s).Ok? ==> EncodeRowCursor(DecodeRowCursor(s).value) == s
  {
    Widths();
    if |s| == 40 {
      FromBERoundTrip(s[..8]);
      hide BE, FromBE;
      assert s == s[..8] + s[8..];
    }
  }
}
