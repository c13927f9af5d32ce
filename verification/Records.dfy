/** The rows the store keeps and the events a block hands to it. */
module Records {
  import opened ByteStrings

  datatype Option<+T> = None | Some(value: T)

  datatype Result<+T> = Ok(value: T) | Err

  // ---- HTLC rows ------------------------------------------------------------

  datatype HtlcState = Locked | LockedExpired | Claimed | Reclaimed | Unknown

  datatype HtlcRole = Sender | Receiver | Both | Observer

  datatype HtlcParams = HtlcParams(sender: Hash, receiver: Hash, hashLock: Hash, timeoutHeight: u64)

  datatype HtlcClaim = HtlcClaim(txId: Hash, preimage: Bytes, blockHeight: u64, inputIndex: u32)

  datatype HtlcReclaim = HtlcReclaim(txId: Hash, blockHeight: u64, inputIndex: u32)

  datatype HtlcRecord = HtlcRecord(
    lockTxId: Hash,
    outputIndex: u32,
    params: HtlcParams,
    amount: u64,
    lockBlockHeight: Option<u64>,
    state: HtlcState,
    claim: Option<HtlcClaim>,
    reclaim: Option<HtlcReclaim>,
    role: HtlcRole,
    lastIndexedHeight: u64)
  {
    // A record without a lock height sorts and wipes as if locked at the end of time.
    function LockHeight(): u64 {
      match lockBlockHeight
      case Some(h) => h
      case None => U64_MAX
    }

    predicate Settled() {
      state.Claimed? || state.Reclaimed?
    }
  }

  // ---- Other rows -----------------------------------------------------------

  datatype BlockMeta = BlockMeta(blockId: Hash, txCount: u64, timestamp: u64)

  datatype SettlementRecord = SettlementRecord(
    txId: Hash,
    blockHeight: u64,
    contractHash: Hash,
    outcome: HtlcState,
    observerAddress: Hash,
    counterparty: Hash,
    amount: u64,
    lockTxId: Hash,
    lockOutputIndex: u32)

  datatype ActivityValue = ActivityValue(amount: u64, isCoinbase: bool, counterparties: seq<Hash>)

  datatype SpentByEntry = SpentByEntry(
    prevTxId: Hash,
    outputIndex: u32,
    spendingTxId: Hash,
    inputIndex: u32,
    blockHeight: u64)

  datatype OutputDatumRecord = OutputDatumRecord(quoteId: Option<QuoteId>, unhonorable: bool, blockHeight: u64)

  // ---- The follower checkpoint ----------------------------------------------

  const SCHEMA_VERSION: u32 := 1

  datatype FollowerMeta = FollowerMeta(
    lastIndexedHeight: u64,
    lastIndexedBlockId: Hash,
    fullScanComplete: bool,
    startedAt: u64,
    schemaVersion: u32)

  const DEFAULT_META := FollowerMeta(0, ZERO_HASH, false, 0, 0)

  // The one checkpoint row: missing, written by an older layout that no longer
  // decodes, or readable.
  datatype Checkpoint = Missing | Undecodable | Stored(meta: FollowerMeta)

  // ---- Events of one block --------------------------------------------------

  datatype SpendArm =
    | Claim(preimage: Bytes, spendingTxId: Hash, inputIndex: u32)
    | Reclaim(spendingTxId: Hash, inputIndex: u32)

  datatype HtlcSpend = HtlcSpend(lockTxId: Hash, outputIndex: u32, arm: SpendArm)

  datatype AddressActivity = AddressActivity(
    address: Hash,
    txId: Hash,
    amount: u64,
    isInput: bool,
    isCoinbase: bool,
    counterparties: seq<Hash>)

  datatype OutputDatum = OutputDatum(
    txId: Hash,
    outputIndex: u32,
    quoteId: Option<QuoteId>,
    unhonorable: bool)

  datatype BlockEvents = BlockEvents(
    height: u64,
    blockId: Hash,
    txCount: u64,
    timestamp: u64,
    fullScanComplete: bool,
    startedAt: u64,
    locks: seq<HtlcRecord>,
    spends: seq<HtlcSpend>,
    settlements: seq<SettlementRecord>,
    activity: seq<AddressActivity>,
    spentBy: seq<SpentByEntry>,
    outputDatums: seq<OutputDatum>)
}
