# exfer-indexer: the index store and its follower

The indexer keeps a store in step with the tip of an exfer node and answers
queries about HTLCs, settlements, address histories and quotes from it. This
project models the store (`src/db/mod.rs`), the follower that drives it
(`src/follower.rs`) and the extraction of events from transactions
(`src/extract.rs`), and proves what their comments promise, or exactly when
they hold.

- `Bytes`, `Keys`: byte strings in lexicographic order, the key encoders, the
  prefix bounds of the range scans and the cursor payloads.
- `Records`, `Tables`, `Folds`, `Seqs`: the rows, the events of a block, and
  what one block and one rewind do to the tables, as functions.
- `Db`: the store as a class of thirteen tables changed in place. `Valid` says
  that the four HTLC indexes and the settlement mirror are exactly the keys the
  rows imply; every method keeps it and says what the new tables are.
- `Replay`, `Rewind`, `Runs`: walking blocks again, undoing blocks, and what
  every sequence of blocks, rewinds, cursor saves and restarts keeps.
- `Extract`, `Blocks`: witnesses, datums, locks and spends of a transaction,
  the join with previous outputs, counterparties, and the events of a block.
- `Follower`, `Sessions`: the follower as a class whose tick may fail at any
  call to the node and at any commit, and runs of ticks and restarts.
- `Forks`, `Reorg`, `Reindex`, `Guarantees`, `OnChain`: chains instead of event
  lists. What follows from sound transactions alone, forks of one block and
  deeper ones, the migration's walk from genesis, and which rows a walk stores
  for what the chain carries.
- `Invariants`: what any run of the follower keeps, against any nodes at all.
- `Counterexamples`: for each finding below an input that shows it.
- `Paging`, `Queries`, `History`, `Grouping`, `Stats`: the queries as methods
  over the indexes, each equal to a scan of the primary rows.

A chain of events is a straight walk when its blocks are applied to empty
tables once and in order. Most results compare what the code reaches with it.

## Findings

- A rewind selects HTLC rows by lock height only, so a row locked at or below
  the cut and settled above it keeps its abandoned settlement
  (`RewindTheorem`, `AbandonedClaimSticks`). At the level of the follower a
  reorg of one block ends in step with the new branch exactly when the abandoned
  block settled no open HTLC; a new branch that carries the very same settlement
  does not repair it either (`OneBlockReorg`).
- `find_common_ancestor` steps back one block and never compares it with the
  stored one, although the comments of `src/follower.rs:22-25` speak of walking
  back to the common ancestor. A deeper fork is never repaired
  (`DeepForkIsNeverRepaired`, `DeepForkExists`).
- Settlement rows are built from the record as it was before its spend is
  applied, so on a sound chain they carry the id of the locking transaction,
  never of the settling one (`SettlementsNameTheLock`). Two outputs of one
  transaction that settle in one block can then share a row
  (`SettlementRowsCollide`, `SettlementsCollide`).
- The documentation says that walking indexed blocks again only rebuilds the
  store. The store's own apply has that property on equal events (`ReWalk`,
  `Backfill`). The follower's second walk always rebuilds every table but the
  settlements (`BackfillButSettlements`); on a sound chain it rebuilds those too
  exactly when every held HTLC is spent in a later block than the one that locks
  it (`BackfillConverges`). One spent in its own block has no settlement on the
  first walk and gains one on the second (`SecondWalkDiffers`).
- The migration promises to preserve the start time. It does so for a readable
  checkpoint; the older layout does not decode, and its start time is lost
  (`OpeningMigrates`).
- The cursors of the address history and of the settlement list without a
  contract are not unique. Pages of every size show the whole history exactly
  when no transaction has the address on both sides (`HistoryComplete`,
  `TiedRowsAreLost`), and the whole settlement list exactly when no transaction
  settled for the address under two contracts at one height
  (`SettlementsComplete`, `TiedSettlementsAreLost`). The second cannot happen in
  a store of the follower as long as all HTLCs have one template hash
  (`FollowedListsComplete`). Newest first is the reversal of oldest first exactly
  when no transaction has the address on both sides (`HistoryDirections`).
- A page limit of zero is answered only when nothing is left to show and
  otherwise fails, because the code indexes row `limit - 1` (`LimitZeroFails`);
  grouping with limit zero can still return one group (`LimitZeroGroups`).

## Model

| member | source | states |
|---|---|---|
| ByteStrings.PrefixRange | src/db/mod.rs:476-483 | the bounds that pad a prefix with 00 and FF bytes select, among keys of the full length, exactly those with the prefix |
| ByteStrings.BEOrder | src/db/mod.rs:1729-1856 | big-endian encoding keeps order: byte order of encodings is numeric order |
| ByteStrings.ByteOrders | src/extract.rs:339 | four bytes read as a number, most or least significant first |
| Keys.PrimaryKeyInjective | src/db/mod.rs:1729-1734 | two outpoints have one primary key exactly when they are equal |
| Keys.ActivityKey | src/db/mod.rs:1796-1803 | the slices that queries and wipes read give back address, height, transaction and direction |
| Keys.SettlementKey | src/db/mod.rs:1805-1831 | the slices that queries and wipes read give back both hashes, the height and the transaction |
| Keys.QuoteKey | src/db/mod.rs:1846-1856 | the slices that the quote lookup reads give back quote, transaction and output index |
| Keys.StateAndDirectionBytes | src/db/mod.rs:1776-1794 | the bytes that stand for the five states and the two directions |
| Keys.RecordKeys | src/db/mod.rs:1322-1384 | the primary and the four index keys of a record, field by field; without a lock height it sorts at the end |
| Keys.AddressHeightKeyInjective | src/db/mod.rs:1736-1766 | a sender or receiver key determines address, height and outpoint |
| Keys.HashlockKeyInjective | src/db/mod.rs:1768-1774 | a hashlock key determines hashlock and outpoint |
| Keys.StateKeyInjective | src/db/mod.rs:1776-1794 | a state key determines state, height and outpoint |
| Keys.ActivityKeyInjective | src/db/mod.rs:1796-1803 | a timeline key determines address, height, transaction and direction |
| Keys.SettlementKeyInjective | src/db/mod.rs:1805-1831 | a settlement key determines both hashes, height and transaction |
| Keys.AddressHeightKeyOrder | src/db/mod.rs:1754-1766 | byte order of the address-height keys of one address is the order of height, then outpoint |
| Keys.ActivityKeyOrder | src/db/mod.rs:1796-1803 | byte order of timeline keys of one address is the order of height, transaction, direction |
| Keys.SettlementKeyOrder | src/db/mod.rs:1805-1831 | byte order of settlement keys with one prefix is the order of height, transaction |
| Keys.QuoteKeyInjective | src/db/mod.rs:1846-1856 | a reverse datum key determines quote and outpoint |
| Keys.MirrorSwap | src/db/mod.rs:1805-1831 | swapping the first two fields turns either settlement key into the other |
| Keys.HtlcCursorRoundTrip | src/db/mod.rs:58-78 | decoding an encoded HTLC cursor gives it back |
| Keys.EncodeHtlcCursor | src/db/mod.rs:58-65 | the payload is height, transaction, output index, big-endian |
| Keys.HtlcPayloadRoundTrip | src/db/mod.rs:58-78 | a payload decodes exactly when it has 44 bytes, and re-encodes to itself |
| Keys.RowCursorRoundTrip | src/db/mod.rs:98-121 | decoding an encoded settlement or history cursor gives it back |
| Keys.EncodeRowCursor | src/db/mod.rs:98-104 | the payload is height, then transaction |
| Keys.RowPayloadRoundTrip | src/db/mod.rs:98-121 | a payload decodes exactly when it has 40 bytes, and re-encodes to itself |
| Database.Db.constructor | src/db/mod.rs:329-345 | a new store is empty, agrees with its indexes and carries the current version |
| Database.Db.Reopen | src/db/mod.rs:329-439 | opening again changes nothing but the checkpoint, as the migration prescribes |
| Database.Db.MigrateSchema | src/db/mod.rs:371-439 | the checkpoint afterwards, for a missing, an undecodable, an older and a current one |
| Database.Db.ApplyBlockEvents | src/db/mod.rs:1147-1212 | one block: all tables and the checkpoint are those of the block's events, and the indexes still agree |
| Tables.CheckpointSays | src/db/mod.rs:1193-1208 | the checkpoint after a block carries its height, id, flag and start time, and version 1 |
| Database.Db.UpsertHtlc | src/db/mod.rs:1322-1384 | the record replaces the one at its outpoint and no index keeps a key of the old one |
| Database.Db.ForgetHtlc | src/db/mod.rs:1386-1427 | the record and its four index keys are gone and nothing else is |
| Database.Db.AdvanceHtlc | src/db/mod.rs:1429-1491 | an unsettled record gets the outcome with transaction, preimage, height and input, and moves in the state index; a settled or unknown one is left alone |
| Tables.AdvanceWrites | src/db/mod.rs:1456-1486 | field by field, what a spend writes into an open record and that it leaves the rest |
| Database.Db.WriteSettlement | src/db/mod.rs:1493-1520 | a settlement is written under both keys |
| Database.Db.WriteOutputDatum | src/db/mod.rs:1568-1591 | a datum row is written, with a reverse row exactly when it has a quote |
| Database.Db.WipeAbove | src/db/mod.rs:1223-1284 | every table keeps exactly its rows at or below the cut, the indexes still agree, the checkpoint is untouched |
| Database.Db.WipeSettlementsAbove | src/db/mod.rs:1658-1702 | both settlement tables lose the rows above the cut and stay mirror images |
| Database.Db.WipeOutputDatumsAbove | src/db/mod.rs:1593-1633 | datum rows above the cut go, together with exactly their reverse rows |
| Database.VictimsAbove | src/db/mod.rs:1228-1243 | the collected victims are exactly the keys of rows above the cut, in key order |
| Replay.HtlcRefinement | src/db/mod.rs:1163-1171 | after any walk the record at an outpoint is its last lock advanced by the first classified spend of that block or later; without a lock, what was there before, advanced by the first spend |
| Replay.ReWalk | src/db/mod.rs:1147-1212 | walking blocks over a store equals walking them from empty exactly when the store holds no row the walk does not write |
| Replay.Backfill | src/db/mod.rs:347-370 | a store of the first n blocks, with or without datum tables, walked again through all blocks is the store of one walk |
| Replay.ReplayIdempotent | src/db/mod.rs:357-360 | applying just-applied blocks again changes nothing, over any store |
| Rewind.EveryCutSplits | src/db/mod.rs:1216-1218 | on increasing heights any cut separates a prefix of kept blocks from the abandoned ones |
| Rewind.WipeMeans | src/db/mod.rs:1223-1284 | row by row, a rewind keeps exactly what was made at or below the cut; an HTLC without a lock height goes |
| Rewind.RewindTheorem | src/db/mod.rs:1223-1284 | on a valid chain the rewind leaves the straight walk of the kept blocks, except HTLC rows open at the cut and settled above it, which keep that settlement; equality holds exactly when there is none |
| Rewind.AdvanceKeepsPlace | src/db/mod.rs:1429-1491 | such a row differs only in outcome, and sits at the same place in every index but the one by state |
| Rewind.ReorgConvergence | src/db/mod.rs:1223-1284 | walking A, rewinding to the fork and walking B gives the tables of B exactly when B repairs every stuck row |
| Runs.Perform | src/db/mod.rs:1147-1284 | any run of the store's methods is a run of the pure transitions and keeps the index agreement |
| Runs.OpeningMigrates | src/db/mod.rs:371-439 | opening makes the version current, keeps a readable start time and loses an unreadable one, sends every older checkpoint to genesis and leaves current ones alone |
| Runs.MigratedOnce | src/db/mod.rs:1193-1208 | after one opening no run of blocks, rewinds, saves and openings lowers the version, and no later opening changes anything |
| Runs.RunShaped | src/db/mod.rs:1226-1248 | in every reachable state each primary key is the one its row encodes |
| Runs.OutcomeInvariant | src/db/mod.rs:1429-1491 | in every run of blocks with fresh locks, rewinds, saves and restarts, in any order: claimed with a claim only, reclaimed with a reclaim only, open with neither |
| Runs.LifecycleInvariant | src/db/mod.rs:1429-1491 | when moreover no block is applied below a block still held, no row is ever settled before it was locked |
| Runs.SettledIsFinal | src/db/mod.rs:1451-1454 | no sequence of blocks changes a settled row unless its outpoint is locked again |
| Runs.DatumAgreement | src/db/mod.rs:1568-1633 | while outpoints keep their datum, every reachable reverse index is exactly what the forward rows imply |
| Extract.PrintedClaimIsRead | src/extract.rs:305-344 | every preimage below 2^32 bytes, printed in the claim layout with anything after it, is read back |
| Extract.ClassifiedExactly | src/extract.rs:305-344 | a witness is a claim of p exactly when it starts with the printed p, a reclaim exactly when it starts with the right tag and has two bytes |
| Extract.WitnessBytes | src/extract.rs:19-26 | the layouts byte for byte: a claim of two bytes and a reclaim, with anything after them |
| Extract.ExtractFromTx | src/extract.rs:146-287 | the four event streams of a transaction, position by position; LocksExactly, ReceiptsExactly, DatumsExactly and SpendsExactly say what is in them |
| Extract.NothingExtracted | src/extract.rs:147-150 | a transaction that cannot be hashed yields nothing and a zero id |
| Extract.LocksExactly | src/extract.rs:214-242 | a record is a lock exactly when its output parses to its parties, with its value as amount, expired exactly when the height is past the timeout, and nothing settled |
| Extract.ReceiptsExactly | src/extract.rs:198-212 | a receipt is exactly an output whose script is an address, with its value and the coinbase flag |
| Extract.ExtractedRows | src/extract.rs:214-240 | locks are fresh and carry height and transaction; datums are honorable or flagged, never both; receipts have no counterparties yet |
| Extract.DatumsExactly | src/extract.rs:172-196 | an output is indexed under a quote exactly when its inline datum is those 16 bytes, and flagged exactly when it shows only a hash |
| Extract.SpendsExactly | src/extract.rs:245-268 | spends are exactly the classified inputs of a transaction that is not a coinbase |
| Blocks.CounterpartiesExactly | src/follower.rs:244-258 | the counterparties of a row are exactly the addresses on the other side of its transaction, each once, never its own |
| Blocks.CounterpartyDuality | src/follower.rs:186-259 | of two rows on opposite sides both list each other or neither does, and they do exactly when their addresses differ |
| Blocks.PaymentsExactly | src/follower.rs:217-240 | a payment is exactly an input, not of a coinbase, whose previous output is known and has an address, with that output's value |
| Blocks.SpentByExactly | src/follower.rs:206-215 | a spent-by entry is exactly an input, not of a coinbase, with the spending transaction, position and height |
| Blocks.SettlementRowsExactly | src/extract.rs:375-419 | a spend of a held record makes exactly two rows, one per party, with outcome, contract, amount, outpoint and transaction written out |
| Blocks.BothPartiesSettle | src/extract.rs:393-418 | the sender has its row and the receiver has its row |
| Following.Follower.ScanInputs | src/follower.rs:195-242 | with the previous transactions cached per block: spent-by entries for all inputs and payments for those with an address |
| Following.Follower.CollectEvents | src/follower.rs:155-299 | fetching a block yields exactly its events or an error, an error only for a failed call or an unanswered lookup |
| Following.Follower.ProcessBlock | src/follower.rs:149-301 | a block is committed whole or not at all |
| Following.Follower.FindCommonAncestor | src/follower.rs:335-343 | one block back, with the node's id for it |
| Following.Follower.Tick | src/follower.rs:86-143 | whatever fails, the store is one of those a tick may leave; without a failure, on a node that answers, the tick succeeds |
| Following.ScanFlag | src/follower.rs:108-127 | a tick that changes the checkpoint marks the scan complete exactly when no block was left to walk, and one that succeeds with none left does |
| Sessions.TickKeepsSync | src/follower.rs:86-143 | a tick keeps a store in step with the chain, never goes back, and on success holds all the node shows |
| Sessions.WalkUnderFailure | src/follower.rs:70-143 | any run of ticks, failures and restarts, against any views of a growing chain, reaches only uninterrupted walks up to the checkpoint, which never goes back |
| Sessions.TickRepairs | src/follower.rs:93-113 | a tick that finds its one block abandoned ends in step with the new branch; interrupted after the wipe it can be repeated |
| Sessions.RepairUnderFailure | src/follower.rs:93-113 | so does any run of ticks and restarts, and it stays there |
| Sessions.OpenedInSync | src/db/mod.rs:371-439 | opening a new or an older store starts a walk from genesis over its tables |
| Sessions.StartTimeSurvives | src/follower.rs:88-91 | a start time once known survives every tick, and an unknown one is set to the current time or left |
| Sessions.Run | src/follower.rs:70-82 | the follower object, run through any ticks and restarts, stays in step |
| Forks.SoundTxsMakeValidChain | src/follower.rs:149-301 | when no transaction is in two blocks and no two blocks spend one outpoint, the follower's events are a valid chain |
| Forks.ForkOfOneBlock | src/follower.rs:93-113 | after a fork of one block the rewind leaves a straight walk exactly when the abandoned block settled no open HTLC |
| Forks.DeepForkIsNeverRepaired | src/follower.rs:330-343 | after a deeper fork no run ever reaches a straight walk of the new branch; the stored block id below stays the abandoned one |
| Forks.FollowBlocks | src/db/mod.rs:1150-1161 | a walk stores for each of its heights the id, count and timestamp of the node's block, and leaves the others |
| Reindex.ReWalkBuildsSameEvents | src/follower.rs:266-284 | walking again over old rows builds the events of the first walk exactly when every spend of an HTLC they hold comes in a later block than its lock |
| Reindex.BackfillButSettlements | src/db/mod.rs:347-370 | the walk from genesis over the rows of the first n blocks, once past them, has every table of one straight walk but the settlements, on any chain |
| Reindex.EarlySpendShows | src/follower.rs:266-284 | on a sound chain, an HTLC spent in the block of its lock makes the second walk end in another store |
| Reindex.BackfillConverges | src/db/mod.rs:347-370 | the second walk ends as one straight walk if every held HTLC is spent in a later block than its lock, and on a sound chain only if |
| Reindex.BackfillUnderFailure | src/db/mod.rs:347-370 | the same through any run of failing ticks and restarts: of the stores past the old rows exactly those are in step with the chain |
| Reindex.ReindexedLifecycle | src/db/mod.rs:347-370 | those stores obey the whole lifecycle, and the ones before them too where no block spends an HTLC that only a later block locks |
| Reorg.SameSpendMisnames | src/follower.rs:266-284 | a new branch that settles a stuck HTLC in the same way still ends with different settlement rows |
| Reorg.OneBlockReorg | src/follower.rs:86-143 | a successful tick after a fork of one block ends in step with the new branch if and only if the abandoned block settled no open HTLC |
| Invariants.LifecycleUnderFailure | src/db/mod.rs:1429-1491 | in every run of ticks, interrupted anywhere and against any nodes, and of restarts: claimed rows have a claim only, reclaimed ones a reclaim only, open ones neither, none is settled before it was locked and none is locked above the checkpoint |
| Invariants.OutcomesUnderFailure | src/db/mod.rs:1429-1491 | the outcome half also in runs over a store being indexed again, whose rows lie above the checkpoint |
| Invariants.FollowedListsComplete | src/extract.rs:375-389 | with one template hash for all HTLCs, unfiltered settlement lists page completely in every store such a run reaches |
| Guarantees.FollowedLifecycle | src/extract.rs:214-240 | in every straight walk each row obeys the lifecycle and is locked at the height of a block walked |
| Guarantees.SpendsFindOpenRows | src/follower.rs:266-284 | on a sound chain a spend never finds a record that an earlier block settled |
| Guarantees.SettlementsNameTheLock | src/extract.rs:375-419 | every settlement row has the parties, amount, template and outcome of the HTLC spent, and the id of the transaction that locked it |
| Guarantees.SettlementRowsCollide | src/db/mod.rs:1493-1520 | two such rows have one key exactly when lock transaction, template and observer agree |
| Guarantees.FollowedDatums | src/db/mod.rs:1568-1591 | in every straight walk the datum tables agree and each row carries the quote of its output |
| Guarantees.QuotesOnChain | src/db/mod.rs:1075-1103 | a quote finds an outpoint exactly when an output of a walked block shows that quote |
| OnChain.HtlcsOnChain | src/extract.rs:214-240 | an outpoint has an HTLC row exactly when a walked block holds an HTLC output there |
| OnChain.HtlcRowOnChain | src/extract.rs:214-240 | the row holds the parties, hashlock and timeout that output parses to, its value, the height of a block that holds it, and, until settled, whether it was past the timeout |
| OnChain.SettledOnChain | src/db/mod.rs:1429-1491 | on a sound chain the row is settled exactly when a classified input walked spends the outpoint, and then records the outcome, transaction, preimage, input and height of such an input; otherwise it records none |
| OnChain.SpendFromInput | src/extract.rs:245-268 | these spends are exactly inputs of a walked transaction, with the arm their witness shows |
| OnChain.SettlementsOnChain | src/extract.rs:375-419 | on a sound chain an address has a settlement row exactly when the block at that height spends an HTLC locked earlier by that transaction and the address is its sender or its receiver |
| OnChain.ActivityOnChain | src/follower.rs:186-259 | an address has a timeline row exactly when the transaction at that height pays it, or spends an output that did, as the direction says |
| OnChain.ActivityRowOnChain | src/db/mod.rs:1522-1550 | the row holds amount, coinbase flag and counterparties of the last of the transaction's rows of that kind |
| OnChain.RowContent | src/follower.rs:186-259 | such a row has the value of an output that pays the address, or that it spends, and faces exactly the addresses of the other side |
| OnChain.SpentByOnChain | src/follower.rs:206-215 | an outpoint has a spent-by row exactly when a walked input spends it |
| OnChain.SpentByRowOnChain | src/db/mod.rs:1552-1566 | the row names the spending transaction, its input and the height |
| OnChain.DatumsOnChain | src/db/mod.rs:1568-1591 | an outpoint has a datum row exactly when an output walked shows 16 bytes or commits to a datum it does not show, and the row says which, and at which height |
| Counterexamples.AbandonedClaimSticks | src/db/mod.rs:1237-1243 | one HTLC claimed on one branch and reclaimed on the other: after rewind and walk it is still claimed |
| Counterexamples.ChangedQuoteLeavesStaleRow | src/db/mod.rs:1568-1591 | an outpoint written with a second quote keeps its reverse row for the first |
| Counterexamples.TiedRowsAreLost | src/db/mod.rs:89-96 | a store with one transaction that pays its own sender: in either direction some page size loses a row |
| Counterexamples.TiedSettlementsAreLost | src/db/mod.rs:89-96 | a store with one transaction settled under two contracts: without a contract some page size loses a row |
| Counterexamples.LimitZeroFails | src/db/mod.rs:605-606 | a store with one HTLC: a page of limit zero fails |
| Counterexamples.LimitZeroGroups | src/db/mod.rs:880-890 | three HTLCs, two with one hashlock: grouping with limit zero returns one group |
| Counterexamples.SettlementsCollide | src/db/mod.rs:1493-1520 | two HTLCs of one transaction reclaimed in one block: no settlement of the first is left |
| Counterexamples.DeepForkExists | src/follower.rs:330-343 | two chains that differ in their last two blocks and a store in step with the first |
| Counterexamples.SecondWalkDiffers | src/follower.rs:266-284 | a sound chain with a lock and its spend in one block: walking it over its own rows ends in another store |
| Paging.PagingPartition | src/db/mod.rs:979-1009 | following cursors shows every row once, but for rows tied with the last key of a page |
| Paging.PageMeans | src/db/mod.rs:605-617 | a page has at most the limit of rows, a cursor exactly when more are left, that of its last row, and fails exactly for limit zero with rows left |
| Paging.PagingExact | src/db/mod.rs:979-1009 | nothing is lost exactly when no page boundary separates equal keys |
| Paging.PagingTheorem | src/db/mod.rs:587-616 | from the first page on: the collected rows and the hidden ones make up the listing; distinct keys lose nothing |
| Paging.CompleteWhenDistinct | src/db/mod.rs:89-96 | pages of every size show the whole listing exactly when no two rows have one key |
| Paging.StableSortMeans | src/db/mod.rs:587-590 | sorting orders by key and permutes |
| Paging.StableSortStable | src/db/mod.rs:979-990 | rows with equal keys keep their order |
| Paging.DescendingIsReversal | src/db/mod.rs:979-990 | sorting in descending order is the reversal exactly when keys are distinct |
| Queries.Materialize | src/db/mod.rs:517-586 | the candidates of a listing, joined from two prefix scans and de-duplicated when an address is given |
| Queries.ListHtlcs | src/db/mod.rs:517-617 | the page cut from the filtered, sorted scan of all records, though read through the indexes |
| Queries.HtlcListingMeans | src/db/mod.rs:177-197 | the listing holds exactly the records with the role, one of the states, the address as sender or receiver, and a lock height not below the least, strictly ascending by lock height, transaction and output |
| Queries.HtlcPaging | src/db/mod.rs:587-616 | paging through HTLCs shows exactly the listing, for every limit from one |
| Queries.LookupByHashlock | src/db/mod.rs:471-508 | the prefix scan answers the filter of all records by hashlock |
| Queries.LookupMeans | src/db/mod.rs:471-508 | the answer holds exactly the records with the hashlock, by outpoint |
| Queries.ListSettlements | src/db/mod.rs:622-673 | the page cut from the filtered, sorted scan of all settlements |
| Queries.SettlementListingMeans | src/db/mod.rs:622-672 | the listing holds exactly the rows of the observer, of the contract if given, at or above the least height, by height and transaction |
| Queries.SettlementPaging | src/db/mod.rs:655-673 | with a contract, paging shows exactly the listing, which is the scan itself |
| Queries.SettlementsComplete | src/db/mod.rs:655-673 | without a contract, pages of every size show the whole listing exactly when no transaction settled for the address under two contracts at one height |
| History.ListAddressHistory | src/db/mod.rs:938-1009 | the page cut from the sorted rows of the address, in either direction |
| History.HistoryListingMeans | src/db/mod.rs:938-990 | a row is listed exactly when the table holds, for the address and under its height, transaction and direction, its amount, coinbase flag and counterparties, at or above the least height; oldest or newest first |
| History.HistoryScanSorted | src/db/mod.rs:950-978 | the rows of an address come out of the scan in order and no two are alike |
| History.TiesAreBothSides | src/db/mod.rs:89-96 | two history rows tie exactly when one transaction has the address on both sides |
| History.HistoryDirections | src/db/mod.rs:979-990 | newest first is the reversal of oldest first exactly when there is no such transaction |
| History.HistoryPaging | src/db/mod.rs:991-1009 | paging loses only rows tied at a boundary, in either direction |
| History.HistoryComplete | src/db/mod.rs:991-1009 | pages of every size show the whole timeline, in either direction, exactly when no transaction has the address on both sides |
| History.FindSettlementsByQuoteId | src/db/mod.rs:1075-1103 | exactly the outpoints in the reverse index under the quote, ascending and each once |
| History.QuoteLookupMeans | src/db/mod.rs:1047-1103 | in an agreeing store these are exactly the outpoints whose forward row names the quote, none unhonorable |
| Grouping.GroupKeys | src/db/mod.rs:860-915 | one pass with early stop returns the shared heads in order with all their members; also what limit zero gives |
| Grouping.FindSharedHashlockGroups | src/db/mod.rs:841-928 | the first groups in byte order, each with every record of its hashlock; the final filter removes nothing |
| Grouping.SharedLocksMean | src/db/mod.rs:831-840 | the hashlocks grouped are exactly those that two different records hold, ascending |
| Stats.TallyMeans | src/db/mod.rs:724-746 | a tally counts rows, successes and refunds, sums the settlement heights and takes the latest |
| Stats.TalliesAddUp | src/db/mod.rs:760-829 | tallies per key add up to the tally of all rows |
| Stats.MirrorScan | src/db/mod.rs:699-723 | reading each row through the mirror's keys gives the rows of the address, in order |
| Stats.ContractStatsOf | src/db/mod.rs:679-749 | one row per contract, ascending, with the tally of its settlements |
| Stats.AttestationEdges | src/db/mod.rs:760-829 | one edge per counterparty and contract, ascending, with the tally of its settlements |
| Stats.ContractRows | src/db/mod.rs:724-746 | the rows behind a statistics row are those of its contract |
| Stats.EdgeRows | src/db/mod.rs:795-829 | the rows behind an edge are those with its counterparty and its contract |
| Stats.EdgesAddUp | src/db/mod.rs:760-829 | the edges of a contract add up to its stats row, whose total is the length of the settlement list |

## Left out

- redb: a write transaction is all or nothing and reads do not fail. A read error inside `peek_htlc`, which the follower swallows, is therefore not modelled.
- bincode and base64: rows and cursor payloads are values; only the checkpoint can be undecodable, as a layout of an older release.
- The exfer crate: `try_parse_htlc`, the template hash, the address of a key and transaction decoding are parameters.
- The template registry and `contract_hash_of_script` rest on the unseen hash.
- HTTP, authentication, JSON-RPC and the upstream client's retries: the node is a chain and a table of transactions, and any call to it may fail.
- A chain that changes while a tick is running: a tick sees one view of the node; different ticks may see different ones.
- Wall-clock time enters as a parameter; logging and the tip watch channel are left out.
- `get_htlc`, `cached_spent_by`, `get_output_datum` and `htlc_count` read or count single rows and would add only easy members.
- Expiry of open HTLCs as the tip advances: the code sets the expired state only when it sees the lock.
- Stats.TallyMeans: counts and the sum of settlement heights are unbounded, not 64 bits wide.
- Following.Follower.Tick: requires a nonempty chain whose heights fit 64 bits and whose genesis id is not all zeros, which the code takes for granted.
- Runs.DatumAgreement: only while an outpoint keeps its datum, which consensus guarantees; Counterexamples.ChangedQuoteLeavesStaleRow shows the other case.
