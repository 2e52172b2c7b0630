# ARCHE consensus core: a verified model

This project models the consensus core of the ARCHE node and proves what it keeps over whole runs.

**One fact, many records.** `Blockchain` (node/chain.py) stores a single abstract fact, the list of accepted
blocks, in many forms: the in-memory UTXO set and coinbase heights, their copies in the store, block records by
height, a hash index, a transaction index, cumulative-work records and a meta record. The model keeps all of them.
`ChainSpec` gives the operations as functions of that state, in the branch order of the program;
`Blockchain.Chain` is the class with its fields updated in place, each method proved equal to its function;
`ChainModel` shows that every operation, on all records at once, does exactly what a two-line machine on a list of
blocks does. The laws about valid chains (`Supply`, `Ledger`, `History`, `Finality`) are then laws of every
reachable node.

**Layers.** `Reflects` is the structural invariant (links, work sums, UTXO set equals replay, store equals memory);
it constrains only records of main-chain blocks (and that hash records are keyed by block hashes), so stale
records may hold anything. `ValidChain` adds that every block passed validation on its own prefix and carries the
required bits. A reorganisation is meaningful under the first alone; under the second none can succeed.

**Files.** `Arith`, `Digits`: powers, division, positional notation. `Compact`: compact targets and retargeting.
`CoinParams`: halving schedule. `Merkle`, `Median`: the two list algorithms. `Model`: transactions, headers, hashes.
`Utxos`, `UtxoSet`: outputs and transaction validity, as functions and as the mutable set. `Store`: key families and
write batches. `ChainSpec`, `Blockchain`: the chain as functions and as a class. `ChainModel`, `ValidChains`:
invariants and runs. `Acceptance`: what `add_block` accepts, spelled out. `Supply`, `Debasement`, `Ledger`, `History`,
`Finality`: laws of chains. `Delivery`: the orphan pool. `Mining`, `TxBuilder`, `Mnemonic`,
`RateLimiter`: the remaining algorithms.

## Assumptions

- Hashing is ideal: a block hash is a free constructor over the packed header, and each byte of a Merkle digest
  carries the bytes that were hashed, so digests never collide and are never met by chance. The integer compared with
  the target is an arbitrary function of the 80 header bytes.
- A txid is a string of hex digits: bytes of any length, in one of their spellings. Transactions and the duplicate
  check compare the strings, the Merkle tree and the header see the bytes, as in the program. What a root or a block
  hash commits to is stated for all of them; the conclusions that need 32-byte txids, canonical spelling, distinct
  bytes or equal counts name that themselves (`RootDecides`, `MerkleCommitment`, `HashCommitsToTxIds`).
- Signatures are an arbitrary relation over records of what they cover; the JSON text that is hashed is taken to
  determine that record. Only `BuilderMeetsValidator` and the lemmas of `Debasement` assume that what a key signs its
  public key verifies, and only `SignatureCommits` and its consequences that no key verifies one signature for two
  messages.
- Txids are not assumed to be unique or to determine their outputs; equal coinbases repeat one and overwrite. The
  accounts (`BlockAccount`, `ChainAccount`) and the laws of `Ledger` need no assumption on them. The supply cap needs
  `SoundChain`, which can be read off each block and the set before it: no transaction spends an output that an
  earlier one of its block created again with less value. It is exact for plain blocks that take the largest reward
  (`ConservesIffSound`), and a node that holds two suitable outputs accepts a block without it once its header is mined
  (`NodeAcceptsDebasement`). It follows from txids computed as `Transaction.txid` and `_coinbase_txid` do
  (`TxIdsSuffice`).
- The genesis block is committed unvalidated. Supply assumes its coinbase within the first subsidy; its bits are
  those `Block.create` gives it.
- Writing a batch is atomic. The wall clock is a parameter.

## Code and documentation

- docs/CONSENSUS.md sections 13 and 14 say that the branch with more work wins. In the code a rival of a stored
  block must carry the same required bits, hence the same work, and only single blocks are compared, so on a valid
  chain no rival is ever accepted (`EarlierBlockRefused`); `RunAppends` follows. Section 14 also returns
  transactions of replaced blocks to the mempool; the code does not.
- docs/CONSENSUS.md section 4 gives one decoding formula. The encoder does not left-shift one- and two-byte
  targets, so below 2^16 encoding and decoding disagree with it; `CompactCanonical` gives the exact domain.
- docs/CONSENSUS.md section 2 defines a txid as the hash of the unsigned body; neither its section 12 nor
  `validate_block` checks that, and section 8 credits the fees of the block where the code measures them on the set
  before it. The fixed supply stated in README.md therefore holds under `SoundChain`; `DebasementCreatesValue` gives
  blocks over any suitable set for which it fails, and `NodeAcceptsDebasement` says when a live node takes one.
- docs/CONSENSUS.md sections 1 and 3 let the header commit to the txids through a tree over 32-byte leaves. It commits
  to the bytes of 32-byte txids together with their number (`HashCommitsToTxIds`). `validate_block` checks neither
  the number nor length or spelling: `OneHeaderTwoBodies`, `OneHeaderRespelled` and `CutCollides` show what then
  shares a header or a root. Section 12 forbids duplicate txids; the code compares their strings, not their bytes.
- The pool limit is 200, but 201 blocks can be delivered in any order, since the first of them never waits;
  `DeliveryLimitTight` shows that 202 cannot.

## Model

| member | source | states |
|---|---|---|
| ChainModel.AddBlockRefines | node/chain.py:369-431 | `add_block` accepts exactly when the list machine does: a valid block after the tip, or after an earlier main-chain block with strictly more total work; all records then agree with the new list, and a refusal changes nothing, whatever stale records exist |
| ChainModel.ReorgStep | node/chain.py:392-431 | success exactly on a known main-chain parent, validity there and strictly more work; the state between its two batches is the prefix's, and the result links, sums and indexes the new chain |
| ChainModel.CommitStep | node/chain.py:492-531 | one commit keeps every record in agreement with the chain, including the work sum and the hash index of all earlier blocks |
| ChainModel.CommitEffect | node/chain.py:496-531 | the ordered commit batch leaves each record family as the in-memory update does |
| ChainModel.RollbackStep | node/chain.py:433-467 | rollback to any height gives a state agreeing with that prefix in memory and in the store |
| ChainModel.RollbackRestores | node/chain.py:433-486 | whatever was built since, rollback brings back exactly the memory and the stored outputs and coinbase heights held at that height, repeated coinbase txids included, and leaves the block, hash, work and transaction records alone |
| ChainModel.GenesisStep | node/chain.py:189-197 | genesis is committed once, on an empty chain, and ignored afterwards |
| ChainModel.GenesisStored | node/block.py:148-170 | the stored genesis block field by field: version 1, bits 0x200FFFFF, nonce 0, its coinbase's txid as root |
| ChainModel.LoadStep | node/chain.py:75-109 | reloading the store gives back the very state memory held |
| ChainModel.MismatchedTipReplays | node/chain.py:83-91 | if the stored tip is not the hash of the top block, damaged output records are replaced by a replay |
| ChainModel.BatchesReload | node/chain.py:464-531 | whatever chain a node reflects, after every batch of every event, also between the two batches of a reorganisation, a restart loses nothing; the contracts of `Chain` say that these are the batches written |
| ChainModel.RunBatchesReload | node/chain.py:75-109 | in particular after every batch of every run from an empty store |
| ChainModel.RunRefines | node/chain.py:50-531 | from an empty store, any sequence of genesis, arrivals, rollbacks and restarts keeps all records in agreement with the list machine |
| ChainModel.ValidationIsLocal | node/chain.py:203-295 | validity and required bits of a block depend only on what is stored below its index |
| ValidChains.RunValid | node/chain.py:245-431 | in every run each block of the chain was valid on its own prefix and carries the required bits |
| Acceptance.AcceptedIff | node/chain.py:245-410 | on any node that reflects a chain, `add_block` accepts exactly the blocks that satisfy a list spelled out with its numbers: parent, proof of work, required bits, root, size, timestamp from the median of the last 11 blocks up to 7200 seconds ahead, form of the transactions, reward, and more total work at the end |
| Acceptance.MaySpendIff | node/tx.py:209-323 | a transaction is valid in a block exactly with 1 to 1000 inputs and outputs, no output taken twice or negative, no more paid out than taken in, and every input present, mature for 100 blocks, unlocked by its key and signed |
| Acceptance.WellFormedIff | node/chain.py:302-343 | the form of a block's transactions, spelled out |
| Blockchain.Chain.constructor | node/chain.py:51-91 | a new object is in the state the store describes |
| Blockchain.Chain.Add | node/chain.py:369-390 | the method changes the object and the store exactly as the specification function, and writes exactly the batches of `AtBatches` |
| Blockchain.Chain.Reorg | node/chain.py:392-431 | the method tries a reorganisation as specified; on success it writes two batches, the store after the first being that of the rolled-back state |
| Blockchain.Chain.Rollback | node/chain.py:452-467 | memory from replay, then exactly one batch; result as specified |
| Blockchain.Chain.FlushUtxo | node/chain.py:469-486 | delete-all-then-put in any key order leaves exactly the current outputs and coinbase heights |
| Blockchain.Chain.CommitBlock | node/chain.py:492-531 | interleaved memory updates and one batch amount to the specified commit |
| Blockchain.Chain.AddGenesisBlock | node/chain.py:189-197 | genesis as specified, in one batch or none |
| Blockchain.Chain.Validate | node/chain.py:245-363 | all checks, with loops over snapshots, decide exactly the specified validity |
| Blockchain.Chain.CheckShape | node/chain.py:302-343 | one coinbase, in front, without inputs; no txid string twice; no negative output |
| Blockchain.Chain.CheckSpends | node/chain.py:345-361 | the loop over a mutated private copy decides validity of every transaction after its predecessors and leaves the base set alone |
| Blockchain.Chain.BuildUtxoAtHeight | node/chain.py:433-450 | the replay loop, stopping at a gap, yields the replay of the stored prefix |
| Blockchain.Chain.GetMedianTimePast | node/chain.py:203-212 | the window loop computes the specified median |
| Blockchain.Chain.GetTotalFees | node/chain.py:214-227 | the nested loops sum the fees on one fixed set |
| Store.JSONStore.Write | node/storage.py:164-170 | operations take effect in order, last one winning, and the resulting store joins the record of batches |
| Store.ApplyOpsConcat | node/storage.py:15-26 | a batch in two parts is the two batches in turn |
| Supply.SnapshotWithinIff | node/chain.py:345-361 | the validator's snapshot, which never sees the coinbase, stays inside the committed map at every step if and only if the coinbase overwrites nothing with something else |
| Supply.CommitPopsValidatedInputs | node/chain.py:503-522 | every input popped by commit and replay of a validated block is present at its turn, with the content that was validated, or the coinbase's where that created the output again |
| Supply.SnapshotAt | node/chain.py:345-363 | every output the validator sees is in the committed map with the same content, except one that the coinbase created again: there the validator sees the old, the commit the new |
| Supply.Account | node/chain.py:503-517 | for any transactions with distinct inputs, value after is value before plus rewards, less what each really left over at its turn, less what was overwritten |
| Supply.BlockAccount | node/chain.py:321-522 | the same equation for every validated block, with its own coinbase as the one reward |
| Supply.StaleFee | node/chain.py:214-227 | a fee measured on the un-updated set is at most what the transaction really leaves over, if it spends nothing its block created again with less value |
| Supply.StaleFeeIff | node/chain.py:214-227 | for inputs from before the block and not raised since, exactly then |
| Supply.BlockConserves | node/chain.py:321-363 | a validated block that spends nothing it has debased adds at most its subsidy to the total value in existence |
| Supply.ConservesIff | node/chain.py:321-363 | a block taking the largest permitted reward does so exactly when the credited fees are covered by the real ones and by overwritten value |
| Supply.ConservesIffSound | node/chain.py:321-363 | among such blocks, if they spend only outputs from before the block, raise none and overwrite none, exactly those that spend nothing debased do so |
| Debasement.DebasementCreatesValue | node/chain.py:214-363 | over any set with two spendable outputs of one key there is a block that passes all transaction and reward checks, creates the one output again with the smaller value of the other, and adds the difference on top of the subsidy |
| Debasement.NodeAcceptsDebasement | node/chain.py:214-390 | a live node with such outputs accepts that block once its header fits; value then exceeds the subsidies so far exactly if it was within the difference of them |
| Supply.SupplyBounded | node/chain.py:321-531 | on every valid chain whose blocks spend nothing they have debased, total value is at most the subsidies so far, and below the maximum supply |
| Supply.RunSupplyBounded | node/chain.py:50-531 | the same for the live UTXO set after any run |
| Supply.TxIdsSuffice | node/tx.py:82-85 | where txids determine their outputs, no block can spend anything debased |
| Ledger.ChainAccount | node/chain.py:433-531 | on every valid chain total value is exactly all rewards, less all fees really left over, less all overwritten value, whatever the txids; a genesis transaction without the coinbase flag counts as a negative fee |
| CoinParams.SupplyBelowMax | coin_params.py:51-63 | the subsidies up to any height sum to strictly less than the maximum supply |
| CoinParams.EraHalves | coin_params.py:55-63 | each era's subsidy is half the last one's rounded down; the cut-off at 64 halvings changes no value |
| CoinParams.SubsidyHalves | coin_params.py:47-63 | blocks below height 500,000 pay 5,000,000,000 units, and 500,000 blocks later the subsidy is half, rounded down |
| CoinParams.SubsidyEnds | coin_params.py:55-63 | a block is paid for exactly below height 16,500,000 |
| CoinParams.SubsidyToIs | coin_params.py:55-63 | the subsidies below any height are those of the whole eras and the part of the current one |
| CoinParams.FinalSupply | coin_params.py:43-63 | the schedule mints 4,999,999,994,500,000 units, and has done so exactly from height 16,500,000 on |
| Ledger.UnspentIff | node/chain.py:433-450 | an output is in the replayed set exactly when some transaction created it and none later spent or re-created it, and has that transaction's value |
| Ledger.SpendIsLive | node/chain.py:345-361 | on a valid chain every spend after genesis takes an output unspent at that moment |
| Ledger.SpendAuthorised | node/tx.py:286-314 | every spend on a valid chain takes a live output, shows a key hashing to the address its creator gave it, and carries that key's signature over this chain id, these inputs and outputs; where the block's own coinbase created the output again, the address is the one from before the block |
| Utxos.SignatureCommits | node/tx.py:65-89 | if no key verifies a signature for two messages, a key and signature that pass validation in two transactions do so for one chain id, one ordered list of outputs taken with their keys, and one list of outputs made |
| Ledger.SignatureIsForOne | node/tx.py:65-89 | the same of two spends on valid chains, of one network or two |
| Ledger.ReusedSignature | node/tx.py:271-307 | if a chain uses a signature twice, every output it spends was created again in between |
| Ledger.SpendWithinLimits | node/tx.py:253-321 | every spend on a valid chain has 1 to 1000 inputs and outputs, takes no output twice, pays nothing negative and no more than it takes in |
| Ledger.NoDoubleSpend | node/chain.py:313-361 | between two spends of one output lies a transaction creating it again |
| History.CoinbaseHeightIsLatest | node/chain.py:519-522 | the recorded height of a coinbase txid is that of the latest block minting it |
| History.CoinbaseMaturity | node/chain.py:345-356 | no block spends an output whose txid was minted as coinbase fewer than 100 blocks before |
| History.TimeRespected | node/chain.py:291-295 | every block's timestamp is at least the median time past at its height |
| History.TimeOkIff | node/chain.py:203-212 | the time rule admits exactly the timestamps from the median of the last eleven blocks on, equality included |
| History.MtpMonotone | node/chain.py:203-212 | median time past never decreases along a chain, through growing and sliding windows |
| Median.MedianCount | node/chain.py:211-212 | the sorted middle element is at least m exactly when the upper half of the window is |
| History.TargetDrift | node/chain.py:229-243 | along a valid chain the target at most quadruples from block to block and falls at most to a quarter up to encoding precision |
| History.RetargetOnChain | node/chain.py:229-243 | at multiples of 2016 the target is the old one in proportion to the time between the first and the last block of the period, clamped, capped and encoded |
| History.BitsWithoutParent | node/chain.py:229-243 | at height 0 and without a parent the required bits are 0x200FFFFF |
| History.BitsConstant | node/chain.py:229-243 | all blocks of a retarget period carry the same bits |
| History.RunCommitments | node/chain.py:171-300 | after any run each stored block above genesis is linked to the block stored below it, meets a target of at most 256 bits, commits to its transactions, keeps the size limit, is indexed under its hash and adds to the recorded work |
| History.RunWork | node/chain.py:171-183 | after any run the work recorded at each height exceeds that below it by the w with w(t+1) <= 2^256 < (w+1)(t+1) for the stored block's target t |
| History.TargetFits | node/chain.py:171-176 | every target on a valid chain fits 256 bits |
| History.WorkPositive | node/chain.py:171-176 | every block is at least one unit of work |
| Model.WorkBracket | node/chain.py:171-176 | work counts how often the target and the hashes below it fit into 256 bits |
| Model.WorkAntitone | node/chain.py:171-176 | a smaller target never has less work |
| Model.HeaderLayout | node/block.py:114-123 | each header field lies at its offset, and numbers read back least significant byte first |
| History.WorkIncreases | node/chain.py:178-183 | total work strictly increases with every block |
| Finality.AcceptedExtendsTip | node/chain.py:369-390 | on a valid chain whatever `add_block` accepts extends the tip, carries the bits required by the store, is at most two hours ahead of the clock and strictly increases the node's work |
| Finality.EarlierBlockRefused | node/chain.py:385-410 | on a valid chain a block at or below the height is refused and changes nothing |
| Finality.RunAppends | node/chain.py:369-431 | runs without explicit rollback only append |
| Finality.RunIndexesExact | node/chain.py:147-165 | in such runs lookup by hash and by txid agree with a linear scan of the chain |
| Finality.HashCommitsToTxIds | node/chain.py:286-319 | for two blocks of valid chains with equal hashes: if equally many txids, joined neighbours have equal bytes, and the txids too if equally long; for 32-byte txids, bytes are equal exactly when the counts are, and strings too in canonical spelling; if bytes are distinct, one list is a Merkle layer of the other, and equal when neither coinbase txid is a pair hash |
| Finality.OneHeaderTwoBodies | node/chain.py:286-343 | beside every valid block of several transactions stands a lone coinbase whose txid is the block's root, under the same header and as valid |
| Finality.OneHeaderRespelled | node/chain.py:286-319 | a valid block of an odd number of transactions, continued by any valid transaction under a respelling of the last txid, is as valid under the same header |
| Merkle.MerkleRoot | node/block.py:79-91 | the nested loops compute the layered root |
| Merkle.LayersAreTree | node/block.py:79-91 | the bottom-up layers compute the top-down tree with repeated right halves |
| Merkle.MerkleCommitment | node/block.py:79-91 | lists of any counts of distinct 32-byte entries have equal roots exactly when the loop over one passes through the other, the empty list sharing its root with one more |
| Merkle.RootDecides | node/block.py:79-91 | lists of one count, duplicates allowed, have equal roots exactly when their joined neighbours are equal, and exactly when they are equal themselves if the entries are as long |
| Merkle.CutCollides | node/block.py:83-91 | moving bytes from an entry to its neighbour keeps the root, so the lengths are needed |
| Merkle.UpperLayerCollides | node/block.py:83-91 | replacing entries by the hashes of their pairs keeps the root, so the count is needed |
| Merkle.DuplicateLastCollides | node/block.py:83-91 | repeating an odd last entry keeps the root, so distinctness is needed |
| Compact.TargetToBits | node/block.py:50-63 | the byte scan yields the normal form by magnitude |
| Compact.CompactLoss | node/pow.py:17-29 | decoding an encoding never exceeds the target and from 2^16 on loses less than 1/2^15 of it |
| Compact.CompactMonotone | node/block.py:50-72 | encode-then-decode is monotone on all 256-bit targets |
| Compact.CompactCanonical | node/block.py:50-72 | re-encoding is stable exactly for zero and targets of at least 2^16 |
| Compact.DecodeIs | node/block.py:66-72 | any 32-bit field decodes to its low 23 bits times 256 to its top byte less three, rounded down |
| Compact.DifficultyMeans | node/block.py:37-47 | at difficulty n the target admits only hashes with n leading zero nibbles, and all of them up to encoding precision; exact from 60 on and at 0 |
| Compact.RetargetBounds | node/pow.py:32-43 | the next target is at most four times the current one, fits 256 bits, and is at least a quarter up to encoding precision |
| Compact.RetargetProportional | node/pow.py:37-43 | between 60,480 and 967,680 seconds the new target is current times elapsed over 241,920, rounded down, capped and encoded |
| Compact.RetargetClamped | node/pow.py:37-39 | faster and slower periods count as those limits |
| Compact.RetargetMonotone | node/pow.py:32-43 | a slower period never yields a harder target |
| Compact.RetargetFixedPoint | node/pow.py:32-43 | on schedule canonical bits are kept, exactly for zero and targets of at least 2^16 |
| UtxoSet.UTXOSet.SpendAll | node/tx.py:119-120 | spending a list removes exactly its outpoints |
| UtxoSet.UTXOSet.AddOutputs | node/tx.py:109-111 | adding outputs creates or overwrites exactly their entries |
| UtxoSet.UTXOSet.Snapshot | node/tx.py:137-142 | an independent copy with equal contents |
| UtxoSet.ValidateTransaction | node/tx.py:209-323 | one pass with a seen-set and a running sum decides the declarative validity |
| TxBuilder.CreateSignedTx | node/tx.py:149-202 | the accumulation loop builds or fails as specified |
| TxBuilder.BuildSelection | node/tx.py:177-186 | the shortest non-empty covering prefix is taken; failure exactly when there is none, or on non-negative values when the whole list cannot cover |
| TxBuilder.BuildPays | node/tx.py:175-193 | the recipient gets the amount, first; the change address gets what the coins leave over, in a second output present exactly if that is positive; no one else gets anything; a failure reports what there is and what is needed |
| TxBuilder.BuildFeeExact | node/tx.py:188-193 | inputs minus outputs is exactly the fee |
| TxBuilder.BuilderMeetsValidator | node/tx.py:149-323 | for coins the set holds, `validate_transaction` accepts the built transaction exactly when it repeats no coin, spends mature coins within the input limit and leaves a non-negative, sufficient fee |
| Delivery.DeliveryOrderIrrelevant | node/node.py:175-195 | next blocks in any order with repeats, and with other refused blocks in between that share no parent hash with them, end in the in-order state with at most such blocks waiting, if batch and foreign parents number at most 201 |
| Delivery.ReplacedOrphan | node/node.py:185-188 | a far block with the parent hash of a waiting one takes its place, and the chain stops short |
| Delivery.DeliveryLimitTight | node/node.py:185-188 | with 202 or more, the first arriving last leaves the node 201 blocks further and no more |
| Delivery.OrphansAttach | node/node.py:190-195 | a waiting run of successors attaches completely, each once |
| Delivery.RefusedBlock | node/node.py:185-188 | a refused block changes only the pool, and is kept there exactly if more than one above the height and fewer than 200 wait |
| Delivery.MempoolAfter | node/node.py:175-195 | an accepted block takes its own transactions out of the mempool, orphans attaching after it take none, a refused block changes nothing |
| Delivery.UnconfirmedConcat | node/node.py:179-180 | what stays in the mempool stays in order |
| Delivery.Node.Handle | node/node.py:175-188 | the method changes node, chain and store as specified |
| Delivery.Node.Attach | node/node.py:190-195 | the recursion ends, the pool shrinking each time, with the specified result |
| Mining.PatchIsSerialisation | node/pow.py:83-83 | overwriting bytes 76 to 79 is re-serialising with that nonce |
| Mining.WinsIff | node/pow.py:82-93 | an attempt wins exactly when the header with its timestamp and nonce hashes to at most the target |
| Mining.MineBlock | node/pow.py:50-97 | the result is the first winning (timestamp, nonce) from the start point, across wrap and timestamp bump, or all attempts up to the stop failed |
| Mnemonic.GenerateMnemonic | wallet/wallet.py:83-109 | the shift-and-mask loop spells entropy or-ed with checksum in 11-bit digits; other lengths fail |
| Mnemonic.WordAt | wallet/wallet.py:105-108 | word i is the i-th group of 11 bits of entropy and checksum from the most significant down |
| Mnemonic.ChecksumLeads | wallet/wallet.py:96-100 | the checksum is the leading bits of the hash of the entropy |
| Mnemonic.ValidateMnemonic | wallet/wallet.py:112-140 | look-up, shift-and-or fold and split decide the specified validity; a word list of another size fails |
| Mnemonic.EncodeValidates | wallet/wallet.py:83-140 | every allowed entropy encodes to a valid mnemonic that decodes to it |
| Mnemonic.ValidIsEncoded | wallet/wallet.py:112-140 | every valid mnemonic is the encoding of the entropy it decodes to |
| Mnemonic.MnemonicsAreEntropies | wallet/wallet.py:83-140 | valid mnemonics and allowed entropies correspond one to one |
| RateLimiter.Limiter.Check | node/p2p.py:78-89 | filter, test and append as specified |
| RateLimiter.PassesIff | node/p2p.py:78-89 | a call passes exactly when fewer than the rate were accepted in the window behind it, whatever the list has forgotten |
| RateLimiter.RateBound | node/p2p.py:71-93 | no half-open interval of one window length holds more than the rate of accepted calls of a peer |

## Left out

- SHA-256, RIPEMD-160 and secp256k1 are abstract functions; hex parsing and malformed keys count as a failed verification.
- JSON text: fields of the wrong type or missing, and the byte size of a block, which is an abstract predicate. Txids that are no hex strings: reading one raises, so no block with one is accepted.
- Header fields outside 32 bits: packing them raises in the program; here they are 32-bit by type, except the timestamp being mined.
- Store keys are typed, one map per prefix; key formatting, LevelDB, the temporary-file replace and read-only stores are not modelled, and the copy loops of `_rebuild_utxo` are whole-map assignments.
- `validate_block` without required bits and `validate_transaction` with overriding coinbase heights: no consensus path calls them so.
- Supply.SupplyBounded: one way only; a chain may stay below the cap although a block debases, by leaving rewards untaken or overwriting value. The exact value is `ChainAccount`.
- Finality.RunIndexesExact: only for runs without explicit rollback, because `_rollback_to` leaves `txindex:` and hash records of abandoned blocks.
- RateLimiter.RateBound: for call times in order and without `cleanup` in between; cleaning up forgets a peer's history by design.
- Delivery: the clock is one value for all arrivals, broadcasting and the mining interrupt are not modelled, and of the mempool only the removal of confirmed transactions is.
- `Node.mine`, mempool admission and eviction, HTTP, peers, wallets beyond the mnemonic, and the ai, agents, experimental, rpc and scripts layers.
