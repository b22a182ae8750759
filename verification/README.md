# Godwoken Web3: models and proofs

Godwoken Web3 lets Ethereum clients talk to the Godwoken rollup. A Rust indexer follows the rollup's
chain and stores blocks, transactions and logs; a TypeScript server translates raw Ethereum
transactions into Godwoken ones and answers queries, filters and subscriptions from that database.

This project models the parts where those pieces must agree, and proves that they do, or exactly when.

| module | what it models |
|---|---|
| `Sync` | the chain follower: appending and rolling back blocks behind a cached tip, as a class and as a machine of single awaits |
| `Indexing` | indexing one block: batches with running cursors, chunked inserts, the update path |
| `StoredRows` | what the rows of an indexed block hold, column by column |
| `EthTx` | a raw transaction decoded and rewritten in TypeScript, read and rebuilt in Rust |
| `Journey` | the way from the raw bytes to the stored hash, over both languages |
| `PolyjuiceArgs` | the Polyjuice argument string, its writers and its two decoders |
| `Rlp` | the encoding of Appendix B of the Ethereum Yellow Paper, for lists of strings |
| `Molecule`, `Codec`, `Uint` | the Molecule layouts, the codecs of L2Transaction, SUDTArgs, BatchSetMapping and the vectors, little-endian integers |
| `UserLog` | the two parsers of Polyjuice user logs |
| `Topics` | the two implementations of topic matching |
| `Filters` | polling filters and their cursors, the log query, the filter store |
| `Emitter` | pushed heads and logs |
| `Cache` | the single-flight cache protocol over Redis |
| `Gas` | intrinsic gas and gas normalisation |
| `Wrappers`, `Seqs`, `Binary`, `Hex` | results, sequences, byte strings and hex text, shared by the others |

Code that works step by step is modelled by classes and methods with loops; each is proved against a
function or relation, and the lemmas are about those. Exceptions, error returns and panics are `Err`.
The Rust release profile keeps overflow checks, so an overflow is a panic. The database, the remote node
and Redis are abstract state with atomic commands; their answers and failures are parameters or choices.
Lemmas switch automatic induction off: every induction is written out.

## Results that differ from the expected ones

- Rebuilding a transaction's hash holds exactly under a condition (`Journey.RawBytesRebuilt`). Beside
  canonical integers it needs a `v` that survives: `+tx.v % 2` is computed on a double, so an odd `v` from
  2^53 on is taken for even (`EthTx.RecoveryByteIsParity`).
- The header test of the TypeScript argument decoder never rejects anything (`PolyjuiceArgs.HeaderTestIsVacuous`).
- In-memory topic matching compares text, the database compares bytes. They agree exactly for filters
  without upper-case topics or with an empty list (`Topics.FiltersAgree`); `Topics.Differing` gives the log
  on which any other filter differs.
- The sync loop waits for ever on a remote that is not longer than the local chain, even when the chains
  differ (`Sync.RunUntilIdle`).
- The cache's lock alone does not make an execution unique (`Cache.TwoExecutionsWithoutExpiry`). With the
  data in place the call runs again exactly for a `get` that is past its last look at the data
  (`Cache.SingleFlight`); no other one executes (`Cache.ServedNeverExecutes`).
- A failing poll of the block emitter costs its subscribers blocks: the restart jumps to the tip of the
  database (`Emitter.RunRounds` says which heads and logs are lost).

## Model

| member | source | states |
|---|---|---|
| Sync.Runner.Tip | crates/indexer/src/runner.rs:34-41 | the tip in use is the database's, from the cached value or by asking; the only failure is the database's, and only without a cached value |
| Sync.Runner.BumpTip | crates/indexer/src/runner.rs:43-58 | after the block behind the cached tip was committed, the cached tip is again the number of the last stored block, or absent if the read failed; the fallback to 0 is never what is cached on a non-empty table |
| Sync.Runner.RevertTip | crates/indexer/src/runner.rs:60-70 | after the block of the cached tip was deleted, the cached tip is again the database's, and absent when nothing is stored |
| Sync.Runner.DeleteBlock | crates/indexer/src/runner.rs:96-114 | one block goes, all or nothing |
| Sync.Runner.StoreL2Block | crates/indexer/src/indexer.rs:84-100 | a block whose number is not stored is stored by a success, whatever the tip; one whose number is stored is left alone; a failure changes nothing |
| Sync.Runner.InsertBlock | crates/indexer/src/runner.rs:183-226 | with the answer in hand: append when the parent hash is the stored tip's hash or nothing is stored, else roll the tip block back; the chain and the cached tip stay consistent under every failure |
| Sync.Runner.Insert | crates/indexer/src/runner.rs:170-229 | one whole `insert` against any honest remote and any failing awaits: afterwards the chain is contiguous and linked and the cached tip is absent or right; a success applied exactly the decided action, a failure none or all of it |
| Sync.EveryRunIsSafe | crates/indexer/src/runner.rs:35-114 | over every run of single awaits, remote answers, connection errors, failures and kills at any point: contiguous from 0, hash-linked, cached tip absent or the database's, the guard of `store_l2_block` true when reached, the previous block always found, no fallback to 0 |
| Sync.Interruptions | crates/indexer/src/runner.rs:231-253 | a connection error, possible whenever the node is asked, keeps the cached tip, a restart forgets it, and only the two commits change the database |
| Sync.InsertIsRun | crates/indexer/src/runner.rs:170-229 | the uninterrupted run of the await-by-await machine changes the database and the cached tip exactly as the method `Insert` does |
| Sync.TipOnRemote | crates/indexer/src/runner.rs:187-210 | for linked, collision-free chains: the local tip's hash is the remote's at that height exactly when the whole local chain is a prefix of the remote |
| Sync.DecideFollows | crates/indexer/src/runner.rs:187-210 | against a longer fixed remote: append exactly when the local chain is a prefix of it, otherwise roll back a block that is not on the remote |
| Sync.ActionDecreases | crates/indexer/src/runner.rs:183-226 | every action brings the chain exactly one step closer to the remote, measured as (M - L) + (N - L) |
| Sync.RunUntilIdle | crates/indexer/src/runner.rs:231-253 | from M blocks sharing L with a fixed remote of N > M: exactly M - L rollbacks and N - L appends, the chain ends equal to the remote, no block of the remote is ever deleted; with M >= N nothing happens, so the run ends on the remote exactly when M < N or the chains were equal |
| Sync.FailuresLoseNothing | crates/indexer/src/runner.rs:231-253 | with connection errors, failures, kills and restarts anywhere in a run against a fixed remote, the commits made are exactly the distance covered, so failures never undo or repeat progress |
| Indexing.CollectLogs | crates/indexer/src/indexer.rs:295-329 | the logs of a transaction are its user logs in order, numbered from 0, other kinds skipped; the 32-bit counter overflows exactly from 2^32 logs on |
| Indexing.KeepTransaction | crates/indexer/src/indexer.rs:271-336 | the transaction that the filter keeps has what the numbering and the update path rely on: its own block's number, and logs numbered from 0 that carry its hash |
| Indexing.NumberOne | crates/indexer/src/indexer.rs:505-526 | the numbering closure places one transaction at the cursors and advances all four, or panics exactly when one would leave its type |
| Indexing.NumberBatch | crates/indexer/src/indexer.rs:493-529 | one batch continues the one-pass numbering of everything before it, and fails exactly when a filter fails or a total leaves its counter |
| Indexing.InsertOrUpdateL2Block | crates/indexer/src/indexer.rs:461-556 | for every transaction list, batch size and chunk size the tables end as the one-pass numbering dictates, with the full gas sums in the block's row; it succeeds exactly when no filter fails, the totals fit, the block is built and an inserted number is new; a failed insert leaves no row |
| Indexing.OnePassAt | crates/indexer/src/indexer.rs:505-521 | the surviving transactions are numbered 0 to n - 1 in order, and cumulative gas is the prefix sum |
| Indexing.OnePassLogs | crates/indexer/src/indexer.rs:508-524 | the logs of the block are numbered 0 to m - 1 in order, each carrying the number and the hash of its own transaction |
| StoredRows.SurvivorAt | crates/indexer/src/indexer.rs:493-501 | every transaction that the filter keeps is numbered, at the place its rank among the kept ones gives it |
| StoredRows.CollectedLog | crates/indexer/src/indexer.rs:298-322 | every user log of a receipt becomes a log with its address, data and topics, numbered by its rank among the user logs |
| StoredRows.StoredTx | crates/indexer/src/insert_l2_block.rs:173-246 | the row of transaction i has its block, hash, gas and every other column, index i, and as cumulative gas the sum up to it |
| StoredRows.StoredLog | crates/indexer/src/insert_l2_block.rs:181-279 | the row of log j of transaction i has its address, data, topics, transaction and block, the row id of the transaction, index i, and as log index the number of logs before it in the block |
| StoredRows.TotalsAreSums | crates/indexer/src/indexer.rs:488-529 | the running totals are the sums of the log counts, of the gas used and of the gas limits |
| StoredRows.UpdatedTxRow | crates/indexer/src/insert_l2_block.rs:348-377 | the update rewrites the row with this block number and index with the columns of the receipt |
| StoredRows.UpdatedLogRow | crates/indexer/src/insert_l2_block.rs:379-429 | the update rewrites the row with this block number and log index with the columns of the receipt |
| StoredRows.OtherRowsStay | crates/indexer/src/insert_l2_block.rs:348-429 | the update leaves the rows of other blocks, and rows past the end of this one, as they are |
| Indexing.FitsIsMonotone | crates/indexer/src/indexer.rs:488-529 | totals that overflow part way would overflow at the end, so failing early never refuses a block that fits |
| Indexing.Database.InsertTxsAndLogs | crates/indexer/src/insert_l2_block.rs:173-282 | the rows of a batch are appended in order with consecutive ids, for any chunk size, each log row with the id of the row of its transaction's place in the batch |
| Indexing.Database.InsertTxs | crates/indexer/src/insert_l2_block.rs:208-246 | ids are given and returned in insertion order |
| Indexing.Database.InsertLogs | crates/indexer/src/insert_l2_block.rs:248-279 | cutting the logs into chunks changes neither their order nor their ids |
| Indexing.LogsPointAtTheirTransaction | crates/indexer/src/insert_l2_block.rs:181-272 | every log row's `transaction_id` is the id of the inserted row whose hash is the log's transaction hash, for any number of transactions and logs |
| Indexing.Database.UpdateTxsAndLogs | crates/indexer/src/insert_l2_block.rs:307-432 | the update statements, one a transaction and one a chunk of logs, rewrite exactly the columns of the rows with the same block and index |
| Indexing.UpdateOrderIsIrrelevant | crates/indexer/src/insert_l2_block.rs:379-429 | updates with distinct keys give the same rows in any order, so parallel chunks commute |
| Indexing.TxUpdateOrderIsIrrelevant | crates/indexer/src/insert_l2_block.rs:348-377 | so do the updates of the transactions, which are sent all at once |
| Indexing.TxKeysDistinct | crates/indexer/src/indexer.rs:501-507 | the keys (block number, transaction index) of one block's transactions are distinct |
| Indexing.LogKeysDistinct | crates/indexer/src/indexer.rs:501-536 | the keys (block number, log index) of one block's logs are distinct |
| Indexing.StoreThenUpdate | crates/indexer/src/insert_l2_block.rs:173-432 | updating a freshly stored block with the same receipts, with any batch and chunk sizes on both sides, leaves every row of all three tables as the store left it |
| Rlp.DecodeInvertsEncode | packages/api-server/src/convert-tx.ts:248-253 | the decoder of Appendix B of the Ethereum Yellow Paper accepts exactly the encoder's outputs and inverts it |
| Rlp.EncodeListInjective | packages/api-server/src/convert-tx.ts:334-351 | two lists with the same encoding are the same list |
| Rlp.StringForm | packages/api-server/src/convert-tx.ts:334-351 | strings are encoded as R_b of Appendix B of the Ethereum Yellow Paper says, with its constants |
| Rlp.ListForm | packages/api-server/src/convert-tx.ts:334-351 | lists are encoded as R_l of that appendix says |
| Rlp.LengthLimit | packages/api-server/src/convert-tx.ts:334-351 | everything shorter than 2^64 bytes can be encoded |
| EthTx.ReencodingIsIdentity | packages/api-server/src/convert-tx.ts:248-272 | re-encoding a decoded transaction gives the raw bytes back exactly when no integer field had a leading zero, although `r` and `s` were padded to 32 bytes |
| EthTx.ReencodingKeepsValues | packages/api-server/src/convert-tx.ts:334-351 | what is re-encoded decodes to the same numbers, now without leading zeros, and to the same recipient and data |
| EthTx.AutoCreateKeyIsFound | packages/api-server/src/convert-tx.ts:424-446 | for a collision-free hash, the cache key written from the re-encoding is the key looked up from the raw bytes exactly for such canonical input |
| EthTx.RecoveryByteIsParity | packages/api-server/src/convert-tx.ts:274-277 | the recovery byte, computed on a double, is the parity of `v` exactly for even `v` and for `v` below 2^53 |
| EthTx.SigningFieldsFollowEip155 | packages/api-server/src/convert-tx.ts:291-321 | the signed list has six fields for `v` 27 and 28, and otherwise ends with a chain id c and two empty strings exactly when `v` is 35 + 2c or 36 + 2c, as the Specification section of EIP-155 says |
| EthTx.SigningItems | packages/api-server/src/convert-tx.ts:291-321 | the signed list holds nonce, gas price, gas limit, recipient, value and data in this order, the integers without leading zeros, and behind them nothing for `v` 27 and 28, else the chain id and two empty strings; it exists exactly for these `v` and from 35 on |
| EthTx.ConcatArgsIsLayout | packages/api-server/src/convert-tx.ts:478-536 | the glued argument text spells the bytes of the one argument layout, and every field fits it |
| Journey.NormalizedText | packages/godwoken/src/normalizers.ts:24-52 | a number text that the normaliser takes is read back from its bytes as the same number |
| Journey.SerializedValues | packages/api-server/src/parse-tx.ts:115-119 | every Godwoken transaction that serialises is valid Molecule and read back with the same ids, nonce, arguments and signature, which is then 65 bytes long |
| Journey.Rewritten | packages/api-server/src/convert-tx.ts:478-556 | an accepted transaction is rewritten with its own nonce, argument layout, chain id rule and signature, within the indexer's size limit |
| Journey.FilteredValues | crates/indexer/src/indexer.rs:167-219 | from those values the indexer takes the create, native transfer and contract call cases to the recipient, amounts, data and signature parts that were sent |
| EthTx.RlpStream.Append | crates/indexer/src/types.rs:103-127 | appending one item appends its encoding |
| EthTx.RlpStream.FinalizeUnboundedList | crates/indexer/src/types.rs:126-127 | the finished stream is the list encoding of the appended items |
| EthTx.ToRlpStream | crates/indexer/src/types.rs:103-128 | the stream of appends writes the encoding of the nine rebuilt fields |
| Journey.RebuiltV | crates/indexer/src/types.rs:89-101 | the replay-protected `v` is the original one exactly when the condition `VSurvives` holds |
| EthTx.RealVIsHashed | packages/api-server/src/db/helpers.ts:318-325 | the `v` shown by the API is the one that went into the hash |
| EthTx.ShownV | packages/api-server/src/db/helpers.ts:318-325 | the `v` shown exists exactly for recovery bytes 0 and 1, and is then 27 or 28 without a chain id and 35 or 36 plus twice the chain id with one |
| EthTx.HashedV | crates/indexer/src/types.rs:89-101 | the hash is computed with that same `v`, and the only failure is its leaving 64 bits |
| Journey.SubmittedIsIndexed | crates/indexer/src/indexer.rs:167-219 | every accepted and submitted transaction is read by the indexer without error, with the fields it had |
| Journey.SubmittedIffAcceptable | packages/api-server/src/convert-tx.ts:356-557 | apart from the verdicts of other services, a decoded transaction is submitted exactly when its size, gas, recipient, amounts, nonce, `v`, `r` and `s` are within the stated limits |
| Journey.CallsAreRouted | packages/api-server/src/convert-tx.ts:500-536 | a call of a contract goes to the contract's account without a recipient in the arguments, one to any other address to the creator account with the address appended, a creation to the creator account alone |
| Journey.AcceptableExample | packages/api-server/src/convert-tx.ts:356-557 | the conditions can be met: a concrete contract creation is acceptable, canonical, and its `v` survives |
| Journey.CanonicalTransactionSurvives | packages/api-server/src/convert-tx.ts:230-243 | every canonical transaction within the limits whose `v` survives is submitted, indexed and rebuilt byte for byte |
| Journey.RawBytesRebuilt | crates/indexer/src/types.rs:89-140 | every acceptable transaction is submitted and indexed, and its raw bytes are rebuilt exactly when its integers had no leading zeros and `v` is 27, 28, or 35 or 36 plus twice this chain's non-zero id, fits 64 bits, and is even or below 2^53 |
| Journey.EthTxHashPreserved | packages/api-server/src/methods/modules/eth.ts:1053-1075 | for a collision-free hash, the stored `eth_tx_hash` is the hash `sendRawTransaction` returned, exactly under the same condition |
| PolyjuiceArgs.WriteBigUInt64LE | packages/api-server/src/convert-tx.ts:136-143 | a 64-bit little-endian write changes eight bytes, and is refused exactly for larger values |
| PolyjuiceArgs.BuildPolyjuiceArgs | packages/api-server/src/convert-tx.ts:118-171 | the buffer filled piece by piece is the argument layout, refused exactly when a number does not fit; a recipient that is not 20 bytes is cut or zero filled |
| PolyjuiceArgs.LayoutBytes | packages/api-server/src/convert-tx.ts:118-171 | the arguments byte by byte: the seven bytes of the header, 3 or 0, gas limit, gas price and value in 8, 16 and 16 little-endian bytes, the size of the data in 4, the data, the recipient |
| PolyjuiceArgs.HeaderTestIsVacuous | packages/api-server/src/parse-tx.ts:34-42 | the header test compares 14 characters with 16 and so accepts every text |
| PolyjuiceArgs.DecodeOfLayout | crates/indexer/src/helper.rs:28-74 | the Rust decoder recovers every field of every layout with up to 128 KB of data, with or without a recipient, and refuses longer data |
| PolyjuiceArgs.DecodersAgree | packages/api-server/src/parse-tx.ts:44-88 | on every byte string the Rust decoder accepts, the TypeScript decoder reads each field the same, numbers in minimal and bytes in lower-case hex text |
| PolyjuiceArgs.TsAcceptance | packages/api-server/src/parse-tx.ts:44-88 | the TypeScript decoder accepts exactly the strings of 52 bytes or more, the Rust decoder exactly those whose length matches their size field |
| Molecule.SerializeTable | packages/godwoken/schemas/index.esm.js:60-80 | the two loops write the total size, the running offsets and the buffers at their offsets |
| Molecule.VerifyAndExtractOffsets | packages/godwoken/schemas/index.esm.js:21-58 | the loops accept and refuse in the code's own order and return the offsets with the total size last |
| Molecule.VerifyOfTable | packages/godwoken/schemas/index.esm.js:21-80 | whatever `serializeTable` writes below 2^32 bytes is accepted, unless the item count test refuses it, with non-decreasing offsets and exactly the input buffers between them, the empty table included |
| Molecule.VerifiedIffTable | packages/godwoken/schemas/index.esm.js:21-80 | nothing but the images of `serializeTable` is accepted |
| Molecule.TableInjective | packages/godwoken/schemas/index.esm.js:60-80 | two lists of buffers with the same table are the same list |
| Molecule.VectorOfTable | packages/godwoken/schemas/index.esm.js:3379-3395 | `length` and `indexAt` of a dynamic vector agree with the items, for every index and for the empty vector |
| Molecule.FieldOfTable | packages/godwoken/schemas/index.esm.js:572-598 | a getter before the last field returns its field |
| Molecule.LastFieldOfTable | packages/godwoken/schemas/index.esm.js:600-605 | the last getter of a table with as many items as fields returns the last field |
| Molecule.LastGetterVersusValidate | packages/godwoken/schemas/index.esm.js:563-605 | on a verified table the last getter equals the piece that `validate` checks exactly when nothing follows that piece, as it does when the item count is the field count |
| Molecule.BytesRoundTrip | packages/godwoken/schemas/index.esm.js:3296-3331 | serialised bytes validate and give the bytes back |
| Molecule.SerializeByte32Vec | packages/godwoken/schemas/index.esm.js:3431-3439 | the loop writes the count and the items in order, and throws exactly when an item is not 32 bytes long |
| Molecule.Byte32VecRoundTrip | packages/godwoken/schemas/index.esm.js:3402-3439 | the vector validates, has its length, and gives every item back |
| Uint.RoundTrip | packages/api-server/src/base/types/uint.ts:36-195 | each of the four integer classes reads back the little-endian text it wrote, on its whole range |
| Uint.Writes256 | packages/api-server/src/base/types/uint.ts:174-182 | the four shifted and masked words are the one 32-byte little-endian form |
| Uint.ReadsBytes32 | packages/api-server/src/base/types/uint.ts:184-195 | reading 32 bytes word by word gives their little-endian value |
| Codec.NormalizeHexNumberLoop | packages/godwoken/src/normalizers.ts:24-52 | cutting the digits into pairs from the right writes the little-endian number |
| Codec.FillPairs | packages/godwoken/src/normalizers.ts:39-48 | byte i is digit pair i from the right, zero past the last pair |
| Codec.PaddedDigitsFit | packages/godwoken/src/normalizers.ts:28-37 | the length test on digit pairs refuses exactly the numbers that do not fit |
| Binary.SliceAt | packages/api-server/src/parse-tx.ts:55-82 | a slice holds the bytes from its start to before its end or the end of the buffer, and nothing when the end comes first |
| Hex.HexText | packages/api-server/src/parse-tx.ts:55-82 | hex text has two lower-case digits for every byte, the high one first, behind 0x |
| Codec.DataRoundTrip | packages/godwoken/src/normalizers.ts:54-64 | hex text comes back in lower case, unchanged exactly when it was canonical |
| Codec.BytesVectorRoundTrip | packages/godwoken/schemas/index.esm.js:3364-3400 | a serialised `BytesVec` validates, has its length, and gives every item back |
| Codec.L2TransactionRoundTrip | packages/api-server/src/parse-tx.ts:91-165 | parsing what was serialised gives the transaction in canonical text, hence the very same object exactly for minimal lower-case input |
| Codec.L2WireFormat | packages/godwoken/schemas/index.esm.js:608-652 | the bytes are the nested tables of the schema, with the fields in its order and widths |
| Codec.SudtWireFormat | packages/godwoken/schemas/index.esm.js:1915-2011 | the bytes are the number of the variant and its table, with the fields in the schema's order and widths |
| Codec.BatchWireFormat | packages/godwoken/schemas/index.esm.js:3079-3084 | the bytes are a table of the counted hashes and the 20-byte fee |
| Codec.SudtArgsRoundTrip | packages/api-server/src/parse-tx.ts:104-125 | the same for both variants of the SUDT arguments |
| Codec.DenormalizeBatchLoop | packages/api-server/src/parse-tx.ts:286-313 | the loop over the hashes collects every item of the vector in order |
| Codec.BatchSetMappingRoundTrip | packages/api-server/src/parse-tx.ts:286-313 | the same for a batch mapping of any number of hashes, none included |
| Codec.ValidRawL2Exactly | packages/godwoken/schemas/index.esm.js:555-606 | a table of five fields validates exactly with the widths 8, 4, 4 and 4 and a length in front of the arguments |
| Codec.ValidL2Exactly | packages/godwoken/schemas/index.esm.js:620-646 | a table of two fields validates exactly when the first does as the raw transaction and the second has its length in front |
| Codec.ValidSudtExactly | packages/godwoken/schemas/index.esm.js:1865-2003 | the union validates exactly for tag 0 with a query and tag 1 with a transfer of the right widths |
| Codec.ValidBatchExactly | packages/godwoken/schemas/index.esm.js:3050-3078 | a batch mapping validates exactly when its hash vector has the counted length and its fee 20 bytes |
| UserLog.LogOfInvertsEncode | crates/indexer/src/helper.rs:229-268 | reading by position finds exactly the log whose encoding the bytes are, so no byte is dropped or invented |
| UserLog.ParseUserLog | crates/indexer/src/helper.rs:229-287 | the Rust parser accepts exactly the encodings of logs with at most 64 KB of data, for any number of topics, and returns that log |
| UserLog.ParsePolyjuiceUserLog | packages/api-server/src/filter-web3-tx.ts:297-333 | the loop over hex text computes the positional reading, on any text |
| UserLog.ParseTextFindsLog | packages/api-server/src/filter-web3-tx.ts:297-333 | on the text of any bytes the TypeScript parser accepts exactly the encodings of logs and returns the log's texts |
| UserLog.SystemLogRoundTrip | crates/indexer/src/helper.rs:199-228 | a system log is accepted exactly with 40 bytes, and its fields encode to those bytes |
| UserLog.SystemLogsAgree | packages/api-server/src/filter-web3-tx.ts:264-295 | both parsers accept the same system logs and read the same fields |
| UserLog.ParseBoth | packages/api-server/src/filter-web3-tx.ts:297-333 | whenever the Rust parser accepts, the TypeScript parser returns the same address, data and topics, and re-encoding them yields the input; each accepts exactly its own class of encodings |
| Topics.FilterLogsByTopics | packages/api-server/src/db/helpers.ts:162-204 | early exits, flag, break and push select exactly the matching logs, in order |
| Topics.MatchLog | packages/api-server/src/db/helpers.ts:176-201 | the inner loop, which runs over the log's topics, decides the positional match |
| Topics.FormatKeeps | packages/api-server/src/db/helpers.ts:92-107 | a formatted log keeps its id and has its topics in hex text |
| Topics.SameMatch | packages/api-server/src/db/helpers.ts:269-291 | the in-memory filter never takes a log that the query would not, and with case-safe topics takes the same |
| Topics.BytesOfTopic | packages/api-server/src/db/helpers.ts:269-291 | the bytes a topic is compared with in the database are those its text spells |
| Topics.Differing | packages/api-server/src/db/helpers.ts:162-204 | for every other filter there is a log that the query selects and the in-memory filter refuses |
| Topics.FiltersAgree | packages/api-server/src/db/helpers.ts:269-291 | both filters select the same logs in the same order from every list exactly when some position lists nothing or every topic is listed in lower case |
| Filters.SortById | packages/api-server/src/db/query.ts:364-366 | sorting gives an ordered permutation |
| Filters.SortedOnce | packages/api-server/src/db/query.ts:364-366 | rows with distinct ids have one ordered permutation, so sorting outside the database loses nothing |
| Filters.GetLogsByFilter | packages/api-server/src/db/query.ts:325-367 | by increasing id, exactly the stored rows in the block range, after the cursor, with a listed address (or none listed) and a matching topic at every position; or the limit error exactly when there are more than the limit or the query times out |
| Filters.FilterCacheRoundTrip | packages/api-server/src/cache/index.ts:127-146 | a stored filter is read back as it was written |
| Filters.FilterManager.Install | packages/api-server/src/cache/index.ts:24-36 | the filter is stored with its cursor, other filters untouched |
| Filters.FilterManager.Uninstall | packages/api-server/src/cache/index.ts:46-52 | exactly that filter goes |
| Filters.FilterManager.UpdateLastPoll | packages/api-server/src/cache/index.ts:62-66 | only the cursor of that filter changes |
| Filters.FilterManager.NewFilter | packages/api-server/src/methods/modules/eth.ts:923-928 | the cursor starts at the newest log, or 0 |
| Filters.FilterManager.GetFilterChanges | packages/api-server/src/methods/modules/eth.ts:998-1037 | the selected logs after the cursor, and the cursor on the last of them; untouched by an empty answer or an error; block filters get the hashes after their cursor |
| Filters.FilterManager.GetFilterLogs | packages/api-server/src/methods/modules/eth.ts:962-976 | the same for a log filter, nothing for the other kinds |
| Filters.BlocksAfterIsSuffix | packages/api-server/src/db/query.ts:148-166 | on a stored chain the blocks after a cursor are all the later ones, in order |
| Filters.NewHashes | packages/api-server/src/methods/modules/eth.ts:1003-1019 | a block filter is answered with the hash of every block after the cursor, in order |
| Filters.NeverTwiceNeverSkipped | packages/api-server/src/methods/modules/eth.ts:1022-1036 | over any appends, rollbacks and polls, also between a poll's reads: ids are delivered in strictly increasing order, none twice, and every stored matching log is delivered or still ahead of the cursor |
| Filters.ExactlyOnce | packages/api-server/src/methods/modules/eth.ts:1022-1036 | with appends only, the concatenated answers are exactly the matching logs from the installation to the cursor |
| Filters.PollOnce | packages/api-server/src/methods/modules/eth.ts:1022-1036 | the method on the filter store is exactly the poll step of the runs |
| Filters.PollCatchesUp | packages/api-server/src/methods/modules/eth.ts:1022-1036 | after a poll that met no limit and no append between its reads nothing matching is left over |
| Emitter.BlockEmitter.Start | packages/api-server/src/block-emitter.ts:46-54 | starting takes the database tip, or keeps the old position on an empty database |
| Emitter.BlockEmitter.Poll | packages/api-server/src/block-emitter.ts:100-157 | a successful poll emits the heads and logs of exactly the blocks above the old tip, and moves to the new one; a failed poll moves nothing and emits no logs; `currentTip` never decreases |
| Emitter.NumbersOfSlice | packages/api-server/src/db/query.ts:133-146 | the blocks between two numbers of a stored chain are all there, in order |
| Emitter.SelectIsRowsIn | packages/api-server/src/block-emitter.ts:121-126 | the log query covers exactly the emitted blocks |
| Emitter.PollAll | packages/api-server/src/block-emitter.ts:100-141 | over any failure-free sequence of polls, also after rollbacks, the emitted heads are start + 1 to `currentTip` without gap or repeat; while the database only grows, the emitted logs are exactly those of the same blocks |
| Emitter.RunRounds | packages/api-server/src/block-emitter.ts:36-141 | polls with any failures, each followed by a restart, over a growing database: the heads from the start to `currentTip` are emitted once, in order, except exactly those that a restart jumped over unread, and the logs except exactly those of the blocks that a restart jumped over |
| Cache.ReturnedValuesWereProduced | packages/api-server/src/cache/data.ts:98-251 | over every run of any number of clients, keys, expiries, lost messages, failing commands and crashes: every value returned was produced by an execution for its key, and each `get` executes at most once |
| Cache.UndisturbedGet | packages/api-server/src/cache/data.ts:135-168 | after any run, a `get` for a key without data and lock, if nothing fails, executes once, returns the result, leaves it as the data and the lock free |
| Cache.SharedFlight | packages/api-server/src/cache/data.ts:153-193 | from any state in which a `get` holds the lock and is about to execute, if nothing fails and the message reaches the subscribers: it executes once, and it and every subscriber of the key return that one value, the others without executing |
| Cache.FailedFlight | packages/api-server/src/cache/data.ts:169-205 | the same with the call failing and nothing else: the lock is deleted, the data stays, the `get` throws, and, unless the error is one of the connection to the node, so does every subscriber of the key, without executing |
| Cache.FailuresThrow | packages/api-server/src/cache/data.ts:98-251 | in every run, a `get` with a failed command or call never returns a value and never executes again |
| Cache.FailureIsRaised | packages/api-server/src/cache/data.ts:153-185 | a failure of the lock's holder leads to the error path, publishing the error unless it is one of the connection; any other failure ends the `get` |
| Cache.FailedCommand | packages/api-server/src/cache/data.ts:98-251 | a failing Redis command has done nothing, or exactly what it would have done |
| Cache.Possible | packages/api-server/src/cache/data.ts:98-251 | which outcomes each step can have: every command and every call may fail |
| Cache.MessageDecides | packages/api-server/src/cache/data.ts:187-205 | a subscriber with a message returns its value or throws its error, without executing |
| Cache.HitReturns | packages/api-server/src/cache/data.ts:98-106 | a new `get` for stored data returns it after one read, with a lock or without |
| Cache.PlainGet | packages/api-server/src/cache/data.ts:110-115 | without a lock, a `get` that misses executes once, stores the result and returns it, and touches no lock |
| Cache.LatecomerWaits | packages/api-server/src/cache/data.ts:135-189 | a new `get` that misses while the lock is held becomes a subscriber, having changed nothing |
| Cache.Subscribes | packages/api-server/src/cache/data.ts:144-189 | a `get` that finds the lock taken subscribes with nothing heard yet, and changes nothing else |
| Cache.TimedOutWaiter | packages/api-server/src/cache/data.ts:194-217 | after its time-out a subscriber looks at the data again and returns it if it is there, or throws if it has polled too long |
| Cache.ReleaseWithoutLock | packages/api-server/src/cache/data.ts:122-133 | a `get` whose lock has expired leaves the locks alone, and returns or throws as it would have |
| Cache.ServedNeverExecutes | packages/api-server/src/cache/data.ts:98-142 | from any state with data for the key, over every run in which that data does not expire, no `get` for the key executes that has not begun or is not past its last look at the data, whatever else expires, fails, crashes or gets lost |
| Cache.SingleFlight | packages/api-server/src/cache/data.ts:111-168 | after any run that left data for the key, and while that data does not expire: a `get` has a continuation in which it executes exactly when it stands between its last look at the data and the end of its call; if the lock does not expire either, exactly when it does and is not waiting for a lock that nobody is going to delete |
| Cache.MutualExclusion | packages/api-server/src/cache/data.ts:144-185 | if no lock expires before its owner's release completes, at most one `get` per key is between SET NX and the DEL of its lock, on the success and on the error path, and a DEL deletes only its caller's lock |
| Cache.TwoExecutionsWithoutExpiry | packages/api-server/src/cache/data.ts:135-153 | the condition of `SingleFlight` is met in runs without any expiry: a `get` that missed the data takes the released lock, and the call runs twice for one key |
| Cache.EarlyExpiryBreaksExclusion | packages/api-server/src/cache/data.ts:122-133 | the assumption is needed: runs in which an early expiry lets two clients execute, and in which a release deletes another client's lock |
| Gas.CalcIntrinsicGas | packages/api-server/src/util.ts:101-130 | the byte loop adds up the price of every byte and the base price of the kind of transaction |
| Gas.IntrinsicGasIs | packages/api-server/src/util.ts:101-130 | intrinsic gas is 53000 for a creation and 21000 otherwise, plus 4 for each zero byte and 16 for each other byte |
| Gas.MaxGasIsLargest | packages/api-server/src/methods/normalizer.ts:183-208 | an amount of gas is affordable exactly when it is at most the floor of the quotient |
| Gas.NormalizeEstimateGasTx | packages/api-server/src/methods/normalizer.ts:103-169 | the estimate is at least the intrinsic gas, affordable when the price is positive, and otherwise the wish itself, raised or cut to the largest affordable amount; it fails exactly when the intrinsic gas is not affordable or the gasless check refuses |
| Gas.NormalizeCallTx | packages/api-server/src/methods/normalizer.ts:23-101 | a requested limit is kept; without one the limit is the block limit for a zero price and else the largest affordable limit up to the block limit; in each case the call is accepted exactly when the limit covers the intrinsic gas, respects the RPC limit and passes the balance and gasless checks |

## Left out

- EthTx.FilterPolyjuice: the tests before it are taken as passed, that the sender's script is an allowed account lock with well-formed arguments and that the recipient's script is the Polyjuice one; a transaction failing them is skipped, or read as an SUDT transfer.
- EthTx.EthRawTxToPolyTx: nested lists among the nine fields are refused here, while the RLP library would hand them on as arrays that `Buffer.from` flattens.
- Journey.RawBytesRebuilt: gas price and gasless rules, signature recovery and balances enter as one verdict, and the account map of the node as a parameter; a contract's script arguments are assumed to hold its address.
- EthTx.SigningFieldsFollowEip155: a chain id below zero, which the RLP library refuses, is an error without further modelling.
- Codec.NormalizeHexNumberLoop: numbers given as decimal text, which `BigInt` would also accept, are treated as syntax errors; the typed callers pass hex text.
- Codec.BatchSetMappingRoundTrip: the union header of ETHAddrRegArgs around the mapping is not modelled; it has the shape of the SUDTArgs union.
- UserLog.ParseBoth: SUDT logs are not parsed; they need a registry address type that is not part of this model.
- Codec.DataRoundTrip: the `Reader` library is taken to accept "0x" and an even number of hex digits, and nothing else.
- Topics.FiltersAgree: lists with null entries are not in the filter type.
- Filters.FilterManager.GetFilterChanges: expiry of stored filters and concurrent polls of one filter are left out, and so is the block-hash form of a filter; validation inside the store is not modelled because its verdict is ignored there.
- Filters.GetLogsByFilter: the join with the transactions table is left out; every stored log has its transaction's row.
- Filters.NeverTwiceNeverSkipped: the indexer is the only writer and commits ids in increasing order.
- Emitter.RunRounds: failures while the database rolls back are not followed, since a restart then moves `currentTip` down and heads repeat; a restart whose own query fails is left out.
- Sync.RunUntilIdle: sleeping is left out, so the run ends where the program would wait; block numbers are unbounded.
- Sync.EveryRunIsSafe: `run_update` beside the sync loop is left out; it changes no block's number or hash on a quiescent chain.
- Indexing.InsertOrUpdateL2Block: what a failed update leaves behind is not stated, since its statements run outside the database transaction; fetching scripts and receipts enters as the outcome of each transaction's filter; the unique keys on hashes and the narrower integer columns of the tables are not modelled.
- Cache.ReturnedValuesWereProduced: the loop of `get` is a machine of single Redis commands rather than a method, because other clients act between any two of them.
- Cache.MutualExclusion: custom lock and channel names shared between keys, and several Redis servers, are left out; the interval timers only decide when steps happen.
- Gas.NormalizeEstimateGasTx: the gasless check enters as a verdict.
- keccak256, blake2b and secp256k1 appear only as collision-free functions or verdicts.
- Migration, metrics, logging, websocket, cluster and rate limiting code, the price oracle and the error tables are left out.
- The many schema classes of the same shape as those modelled are left out.
