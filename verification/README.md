# Verified model of the RUBIN ledger, codecs and gates

A Dafny model of the protocol core of the repository and of the reference semantics and gates around it:

- the transaction and block wire formats of the Rust client, with their weight arithmetic (`CompactSize`, `Wire`,
  `TxWire`, `WitnessWire`, `TxCodec`, `TxWeight`, `BlockWire`) and the fixture builder (`FixtureTx`);
- Merkle roots and header commitments (`Merkle`, `Commitments`);
- the unspent-output set, block connection, undo records and disconnection (`Utxo`, `ChainState`, `Reorg`), and
  what they keep over every run of connects, disconnects and branch switches (`Ledger`, `Times`, `ChainRuns`);
- the node's fork choice carried out with these switches: whatever chains two nodes meet in whatever order, they end
  in the same state (`TipBinding`, `NodeChoice`);
- the conformance runner's DA-set state machine, peer score, fork choice and vector references (`DaSet`,
  `PeerScore`, `ForkChoice`, `TxHexFrom`, with `HexText`);
- the position-preserving scanners (`Text`, `LeanScan`, `GoSanitize`, `GoCaseBody`), the import walks
  (`ImportGraph`), the counting checks of the fixture drift gate (`Cleanup`, `GroupBinding`) and the diff gates
  (`DiffStatus`).

`Bytes` and `Finite` hold what these share. A loop of the source is a method proved equal to a recursive function,
and the laws are proved of that function. The node's chain state is a class whose methods update it in place.

The hash is an arbitrary function from byte strings to 32 bytes. A law that needs collision resistance says so
about an explicit finite set: either the law holds, or two of the strings actually hashed collide.

Seven promises hold under a condition only:

- Disconnecting a block undoes connecting it if and only if the block overwrites no unspent output and creates no
  outpoint twice, except one that a later transaction of the block spends (`Reorg.DisconnectUndoesConnect`,
  `Reorg.OverwriteIsNotUndone`). On every chain built from an empty state the condition always holds, unless core
  bytes collide (`Ledger.ConsistentIsReversible`).
- A header fixes the witnesses when at most one 32-byte value is carried by exactly one coinbase anchor
  (`Commitments.HeaderFixesTransactions`); one root admits two witness versions if and only if the coinbase carries
  both commitments exactly once (`Commitments.OneRootAdmitsBoth`, `Commitments.TwoAnchorsFitTwoBlocks`).
- The DA-set machine is complete exactly when all chunks are present, for a chunk count that is not negative and
  initial chunks in range, and only then (`DaSet.CompletenessIsExact`).
- The sanitised and the raw case body are aligned if and only if the case marker is found at the same column of
  both (`GoCaseBody.CaseBodiesAlign`).
- The witness vector round-trips if and only if the suite id is a byte (`FixtureTx.WitnessRoundTrip`), and the
  fixture builder is injective up to multiples of 256 in the suite ids (`FixtureTx.SameBytesIff`).
- The drift gate's fork-choice test accepts exactly when both works are u64 and the runner prefers the branch
  (`ForkChoice.GateAgrees`, `ForkChoice.GateRefusesHeavyWinner`).
- The test gate parses exactly those diffs of the formal gate whose paths all pass its own path test
  (`DiffStatus.GatesParseAlike`, `DiffStatus.DotPathTellsGatesApart`).

`dafny verify dfyconfig.toml` checks the project.

## Model

| member | source | states |
|---|---|---|
| `CompactSize.ReadEncode` | clients/rust/crates/rubin-consensus/src/compactsize.rs:4-56 | for every u64 and any bytes after it, the strict reader and the lenient decoder both invert the encoder and consume exactly the encoded length |
| `CompactSize.ReadIsCanonical` | clients/rust/crates/rubin-consensus/src/compactsize.rs:4-32 | whatever the strict reader accepts is, byte for byte, the encoding of the value it returns |
| `CompactSize.EncodingIsUniqueShortest` | conformance/runner/run_cv_bundle.py:747-764 | of all byte strings the lenient decoder maps to a value, the encoding is the one shortest; the strict reader accepts exactly that one and calls every other one non-minimal |
| `CompactSize.PrefixFree` | conformance/runner/run_cv_bundle.py:717-764 | two encodings followed by anything are equal only if the values and the remainders are |
| `CompactSize.EncodeByShifts` | conformance/runner/run_cv_bundle.py:717-735 | the shift-and-mask encoder agrees with the other encoder on every u64; above it, it truncates to the low eight bytes |
| `Wire.WriteItems` | clients/rust/crates/rubin-consensus/src/tx_helpers.rs:27-67 | the append loop produces the concatenation of the item encodings after what was there |
| `Wire.ReadItems` | clients/rust/crates/rubin-consensus/src/tx.rs:111-153 | the counted read loop is the list parser for which round trip and canonicity are proved |
| `Wire.ReadCapped` | clients/rust/crates/rubin-consensus/src/tx.rs:266-304 | the read loop under a running byte budget is the capped list parser |
| `Wire.CappedRoundTrip` | clients/rust/crates/rubin-consensus/src/tx.rs:266-376 | any list of valid items within the budget is read back from its bytes whatever follows |
| `Wire.CappedCanonical` | clients/rust/crates/rubin-consensus/src/tx.rs:266-376 | an accepted list has only valid items, its bytes are the bytes consumed, and it is within the budget |
| `TxWire.CoreRoundTrip` | clients/rust/crates/rubin-consensus/src/tx.rs:95-264 | parsing the core bytes of a well-formed transaction, data-availability fields included, gives the core back and leaves the rest |
| `TxWire.CoreCanonical` | clients/rust/crates/rubin-consensus/src/tx.rs:95-264 | an accepted core is within every limit and the consumed bytes are its core bytes |
| `TxWire.CoreBytesInjective` | clients/rust/crates/rubin-consensus/src/tx.rs:506-511 | equal core bytes mean equal cores, so the string hashed to a txid names one core |
| `WitnessWire.WitnessesRoundTrip` | clients/rust/crates/rubin-consensus/src/tx.rs:266-457 | a witness section of well-shaped items within the count and byte limits is read back exactly |
| `WitnessWire.WitnessesCanonical` | clients/rust/crates/rubin-consensus/src/tx.rs:266-457 | an accepted witness section has only well-shaped items, is within both limits and is its own serialisation |
| `TxCodec.TxRoundTrip` | clients/rust/crates/rubin-consensus/src/tx.rs:67-93 | parsing a marshalled transaction, whatever follows, returns it with the exact core end and total end |
| `TxCodec.TxCanonical` | clients/rust/crates/rubin-consensus/src/tx.rs:67-93 | whatever the parser accepts is well-formed, and the bytes up to the two reported ends are its marshalled form and its core |
| `TxCodec.ParserAcceptsExactly` | clients/rust/crates/rubin-consensus/src/tx.rs:67-93 | a byte string parses if and only if it starts with the marshalled form of a well-formed transaction |
| `TxCodec.TxPrefixFree` | clients/rust/crates/rubin-consensus/src/tx.rs:67-93 | a stream of marshalled transactions splits in one way only |
| `TxCodec.ReadCore` | clients/rust/crates/rubin-consensus/src/tx.rs:67-264 | the reader of the core refines the core parser, errors included |
| `TxCodec.ReadWitnesses` | clients/rust/crates/rubin-consensus/src/tx.rs:266-376 | the witness loop refines the capped witness parser, errors included |
| `TxCodec.ReadTail` | clients/rust/crates/rubin-consensus/src/tx.rs:266-497 | the reader of witness and payload refines the tail parser for each transaction kind |
| `TxCodec.ReadTx` | clients/rust/crates/rubin-consensus/src/tx.rs:67-93 | the whole reader refines the parser of the laws above, with its error codes and both end offsets |
| `TxCodec.WriteCore` | clients/rust/crates/rubin-consensus/src/tx_helpers.rs:27-67 | the core writer produces the core bytes |
| `TxCodec.MarshalTx` | clients/rust/crates/rubin-consensus/src/tx_helpers.rs:27-67 | the marshaller fails exactly when the data-availability fields its kind calls for are missing, and otherwise produces the bytes the parser inverts |
| `TxWeight.AddInputSizes` | clients/rust/crates/rubin-consensus/src/block_basic/weight.rs:34-42 | the checked size loop over inputs yields the length of their serialisation, or overflow exactly when that leaves u64 |
| `TxWeight.AddOutputSizes` | clients/rust/crates/rubin-consensus/src/block_basic/weight.rs:44-60 | the loop over outputs yields the length of their serialisation and the covenant bytes of anchors and DA commits, or overflow exactly when the length leaves u64 |
| `TxWeight.WitnessSizeAndCost` | clients/rust/crates/rubin-consensus/src/block_basic/weight.rs:62-84 | the witness loop yields the length of the witness section and the summed costs under any cost table, or overflow exactly when one of them leaves u64 |
| `TxWeight.TablesAgree` | clients/rust/crates/rubin-consensus/src/block_basic/weight.rs:112-175 | the registry table charges every item what the fixed table does if and only if, of the suites it looks up, ML-DSA-87 alone is native and registered, with its own sizes and cost |
| `TxWeight.WeightsAgree` | clients/rust/crates/rubin-consensus/src/block_basic/weight.rs:93-175 | then every transaction has the same weight and statistics, or the same error, under both tables |
| `TxWeight.BaseSize` | clients/rust/crates/rubin-consensus/src/block_basic/weight.rs:24-32 | the base size computed without serialising is the length of the core bytes, with the anchor bytes; missing data-availability fields are refused after the lists are added up |
| `TxWeight.TxWeightOf` | clients/rust/crates/rubin-consensus/src/block_basic/weight.rs:13-110 | the whole checked computation returns, for any cost table, four times the core length plus witness, payload and cost, with data and anchor bytes, or the fault the source reports |
| `TxWeight.ParsedWeightFits` | clients/rust/crates/rubin-consensus/src/block_basic/weight.rs:93-147 | under any table of costs up to 2^32 no parsed transaction fails, and its weight is its serialised size plus three times its core size plus costs |
| `TxWeight.BlockWeight` | conformance/runner/run_cv_bundle.py:403-404 | summed block weight is total serialised size plus three times total core size, for every list of parts |
| `FixtureTx.BuildNonDaTx` | conformance/runner/run_cv_bundle.py:266-297 | the builder, with the suite id masked as each item is appended, produces the marshalled form of the transaction with the masked fields |
| `FixtureTx.BuiltDecodes` | conformance/runner/run_cv_bundle.py:266-297 | outputs, nonce and witness items as masked are recovered exactly from every built transaction, with no bytes left over |
| `FixtureTx.SameBytesIff` | conformance/runner/run_cv_bundle.py:266-297 | two builds give the same bytes if and only if nonce, outputs and items agree with suite ids taken mod 256 |
| `FixtureTx.BuilderIsInjective` | conformance/runner/run_cv_bundle.py:266-297 | so on suite ids that are bytes different fields never build the same bytes |
| `FixtureTx.MaskedSuitesCollide` | conformance/runner/run_cv_bundle.py:289-295 | suite ids 1 and 257 build the same bytes whatever the rest |
| `FixtureTx.WitnessRoundTrip` | conformance/runner/run_cv_bundle.py:712-793 | the witness vector reports success if and only if the suite id is a byte, for all lengths, and the stated wire size is exact |
| `Merkle.LevelUp` | conformance/runner/run_cv_bundle.py:205-212 | one pass pairs neighbours and promotes an odd last node |
| `Merkle.MerkleRootTagged` | conformance/runner/run_cv_bundle.py:198-213 | the level-by-level loop equals the recursive tree of section 2.1 of RFC 6962 on every non-empty list and rejects only the empty one |
| `Merkle.ClimbSplits` | clients/rust/crates/rubin-consensus/src/merkle.rs:28-62 | climbing any level of two or more nodes is the hash of climbing the two parts at the largest smaller power of two |
| `Merkle.ClimbIsTree` | clients/rust/crates/rubin-consensus/src/merkle.rs:28-62 | the climb from the leaves is the recursive tree |
| `Merkle.MerkleRootTaggedChecked` | tools/gen_cv_da_integrity.py:39-61 | the generator's variant succeeds exactly on non-empty lists of 32-byte ids, with the same root |
| `Merkle.RootBinds` | tools/gen_cv_da_integrity.py:39-61 | with different leaf and node tags, equal roots force equal id lists of whatever lengths, or two of the strings hashed for them collide |
| `Merkle.MerkleRootTxids` | tools/gen_cv_da_integrity.py:64-65 | the txid root is the tagged root of the txids |
| `Merkle.WitnessMerkleRootWtxids` | tools/gen_cv_da_integrity.py:68-73 | the witness root is the tagged root with slot zero overwritten by zeros |
| `Merkle.TxidRootBinds` | tools/gen_cv_da_integrity.py:64-65 | the txid root fixes the txid list up to a collision among the strings hashed |
| `Merkle.WitnessRootBinds` | tools/gen_cv_da_integrity.py:68-73 | the witness root does not depend on the coinbase entry and fixes every other one up to such a collision |
| `Merkle.RootsAreSeparated` | tools/gen_cv_da_integrity.py:64-73 | a txid root never equals a witness root, up to such a collision |
| `BlockWire.HeaderRoundTrip` | clients/rust/crates/rubin-consensus/src/block.rs:16-42 | the 116 header bytes parse back to the header |
| `BlockWire.HeaderCanonical` | clients/rust/crates/rubin-consensus/src/block.rs:16-42 | every 116-byte string is the serialisation of the header read from it |
| `BlockWire.ReadBlock` | clients/rust/crates/rubin-consensus/src/block_basic/parser.rs:8-79 | the block reader refines the block parser, error codes included |
| `BlockWire.BlockParserAcceptsExactly` | clients/rust/crates/rubin-consensus/src/block_basic/parser.rs:8-79 | a byte string is accepted as a block if and only if it is the full serialisation of the well-formed block returned |
| `Commitments.MerkleRootFixesCores` | clients/rust/crates/rubin-consensus/src/block_basic.rs:67-93 | two stored blocks with one header root have the same transaction cores, unless strings hashed for them collide |
| `Commitments.CommitmentFixesWitnesses` | clients/rust/crates/rubin-consensus/src/block_basic/coinbase.rs:132-166 | equal witness commitments mean equal transactions after the coinbase, unless strings hashed for them collide |
| `Commitments.HeaderFixesTransactions` | clients/rust/crates/rubin-consensus/src/block_basic.rs:67-93 | one header root fixes all transactions with their witnesses, up to such a collision, when at most one 32-byte value is carried by exactly one coinbase anchor |
| `Commitments.OneRootAdmitsBoth` | clients/rust/crates/rubin-consensus/src/block_basic/coinbase.rs:132-172 | for every canonical coinbase and any two lists with the same cores, one root admits both parsed blocks if and only if the coinbase carries each of their commitments exactly once |
| `Commitments.TwoAnchorsFitTwoBlocks` | clients/rust/crates/rubin-consensus/src/block_basic/coinbase.rs:132-172 | so for any two well-formed witness versions of the same cores with different commitments some coinbase and root admit both parsed blocks |
| `Utxo.ResolveInput` | clients/rust/crates/rubin-consensus/src/utxo_basic.rs:326-388 | one input is checked in the order of the source: encoding, duplicate, presence, availability, vault count, disabled and unsupported covenants, witness slots |
| `Utxo.ResolveInputs` | clients/rust/crates/rubin-consensus/src/utxo_basic.rs:313-324 | the input loop refines the resolution function, first error and witness count included |
| `Utxo.ResolveIsExact` | clients/rust/crates/rubin-consensus/src/utxo_basic.rs:313-371 | resolution succeeds only on distinct present outpoints, returns their entries in input order and assigns every witness item |
| `Utxo.AddOutputs` | clients/rust/crates/rubin-consensus/src/utxo_basic.rs:426-456 | the output loop adds exactly the spendable outputs and sums all values |
| `Utxo.SpendInputs` | clients/rust/crates/rubin-consensus/src/utxo_basic.rs:390-424 | the spend loop removes exactly the outpoints of the inputs and sums them, vaults apart |
| `Utxo.ApplyNonCoinbaseTx` | clients/rust/crates/rubin-consensus/src/utxo_basic.rs:254-523 | the whole update refines the transaction function with its errors in the order of the source, for any signature, covenant-data and vault rules |
| `Utxo.AppliedSpendsPresent` | clients/rust/crates/rubin-consensus/src/utxo_basic.rs:254-523 | an applied transaction had every input present, and the set after it is the set before without them and with its own spendable outputs |
| `Utxo.VaultNeverFundsFee` | clients/rust/crates/rubin-consensus/src/utxo_basic.rs:502-523 | the fee is covered by the inputs that are not vaults |
| `Utxo.ValueConserved` | clients/rust/crates/rubin-consensus/src/utxo_basic.rs:254-523 | the value left in the set plus the fee is at most the value before |
| `ChainState.ApplyCoinbaseOutputs` | clients/rust/crates/rubin-consensus/src/block_basic/orchestration.rs:84-127 | the coinbase loop refines the first step of block application |
| `ChainState.ConnectTx` | clients/rust/crates/rubin-consensus/src/connect_block_inmem.rs:239-286 | one turn of the loop checks shape and nonce replay, applies the transaction and adds its fee within 128 bits |
| `ChainState.ApplyTransactions` | clients/rust/crates/rubin-consensus/src/connect_block_inmem.rs:217-286 | the loop over the block refines its application function, first error included |
| `ChainState.Subsidy` | clients/rust/crates/rubin-consensus/src/subsidy.rs:9-46 | the subsidy is a u64 and from height one on never below the tail emission |
| `ChainState.RecordInputs` | clients/rust/crates/rubin-node/src/undo.rs:59-121 | recording the inputs of one transaction refines the undo function, errors included |
| `ChainState.BuildBlockUndo` | clients/rust/crates/rubin-node/src/undo.rs:59-121 | the undo loops refine the undo function of the block |
| `ChainState.FindSpentInside` | clients/rust/crates/rubin-node/src/undo.rs:131-252 | the pre-pass finds the outpoints the block both creates and spends |
| `ChainState.RemoveCreated` | clients/rust/crates/rubin-node/src/undo.rs:131-252 | removal succeeds exactly when every created outpoint is present or was spent inside the block, and removes all of them |
| `ChainState.RestoreSpent` | clients/rust/crates/rubin-node/src/undo.rs:131-252 | restoring refines the restore function, refusing a repeated or present outpoint |
| `ChainState.Chain.ConnectBlock` | clients/rust/crates/rubin-node/src/chainstate.rs:649-683 | connecting moves the fields to the connected state, with header, linkage, body and coinbase errors in the order of the source, and a rejected block leaves every field as it was |
| `ChainState.Chain.DisconnectBlock` | clients/rust/crates/rubin-node/src/undo.rs:131-252 | disconnecting moves the fields to the disconnected state, and a failure leaves every field as it was |
| `Reorg.UndoFirstRecords` | clients/rust/crates/rubin-node/src/undo.rs:59-121 | for a block that applies, the undo record is always built and lists exactly the outputs taken from before the block, with their entries |
| `Reorg.Provenance` | clients/rust/crates/rubin-consensus/src/connect_block_inmem.rs:217-286 | after any prefix of a block every unspent output was created in the block or is untouched from before it |
| `Reorg.DisconnectUndoesConnect` | clients/rust/crates/rubin-node/src/undo.rs:59-252 | disconnecting after connecting restores the exact previous state if and only if the block overwrites no unspent output and creates no outpoint twice, except one that a later transaction of the block spends |
| `Reorg.OverwriteIsNotUndone` | clients/rust/crates/rubin-node/src/undo.rs:131-252 | a parsed block that creates an unspent outpoint again connects under all rules that let it in, gets an undo record, and is not undone by it |
| `Ledger.NextIsNew` | clients/rust/crates/rubin-consensus/src/connect_block_inmem.rs:217-286 | on a consistent history a transaction that can be applied next has a txid never used before, unless core bytes collide |
| `Ledger.BlockConsistent` | clients/rust/crates/rubin-consensus/src/connect_block_inmem.rs:217-286 | every prefix of a connecting block keeps the history consistent: no txid repeats and spent outputs stay spent, unless core bytes collide |
| `Ledger.ConsistentIsReversible` | clients/rust/crates/rubin-node/src/undo.rs:131-252 | so every block that connects on a consistent history meets the condition for being undone, unless core bytes collide |
| `ChainRuns.TipCanBeUndone` | clients/rust/crates/rubin-node/src/sync_disconnect.rs:143-170 | under any rules of each block, those that read its ancestors included, the last block of a replayed chain can be disconnected, and that gives the replay without it, unless core bytes collide |
| `ChainRuns.PushFaithful` | clients/rust/crates/rubin-node/src/sync.rs:1135-1200 | a block is pushed exactly when it connects, and the node stays the replay of its chain with matching undo records |
| `Times.TimesForHeight` | clients/rust/crates/rubin-node/src/sync.rs:1617-1641 | the store loop over heights yields the times of the last eleven blocks, newest first |
| `Times.WindowSlidesOver` | clients/rust/crates/rubin-node/src/sync_reorg.rs:180-190 | sliding the window over a branch block by block gives the window of the longer chain, for every chain and branch |
| `ChainRuns.PreviewBranch` | clients/rust/crates/rubin-node/src/sync_reorg.rs:804-860 | the preview loops, with the timestamp window of the kept blocks slid along the branch, refine the dry run of a switch |
| `ChainRuns.ApplyPreferredBranch` | clients/rust/crates/rubin-node/src/sync_reorg.rs:685-800 | the switch with its rollback refines the switch function |
| `ChainRuns.RewindAgrees` | clients/rust/crates/rubin-node/src/sync_disconnect.rs:353-460 | on a faithful node the rewind never fails, in the dry run or for real, and both reach the replay of the kept blocks, unless core bytes collide |
| `ChainRuns.BranchAgrees` | clients/rust/crates/rubin-node/src/sync_reorg.rs:712-760 | from a faithful node a branch connects, in the dry run or for real, exactly when the longer chain replays; the rules of each block read the timestamp window at its place |
| `ChainRuns.SwitchIsAtomic` | clients/rust/crates/rubin-node/src/sync_reorg.rs:685-860 | the dry run succeeds exactly when kept blocks and branch replay; a switch whose dry run succeeds cannot fail when executed and ends on the faithful node of the new chain; otherwise the node is as it was; unless core bytes collide |
| `ChainRuns.StepFaithful` | clients/rust/crates/rubin-node/src/sync_reorg.rs:497-581 | connecting, disconnecting or switching keeps the node equal to the replay of its chain with matching undo records; a disconnect of a non-empty chain always succeeds; unless core bytes collide |
| `ChainRuns.EmissionBounds` | clients/rust/crates/rubin-consensus/src/subsidy.rs:9-46 | total emission after n blocks lies between the tail alone and the cap plus the tail |
| `ChainRuns.ReplayValue` | clients/rust/crates/rubin-consensus/src/connect_block_inmem.rs:353-398 | on every replayed chain the emission counter depends on the height alone, and unspent value is at most genesis value plus emission |
| `ChainRuns.EveryRun` | clients/rust/crates/rubin-node/src/sync_reorg.rs:685-800 | after any list of connects, disconnects and branch switches the state is the replay of the surviving chain, supply is bounded, and the tip can be popped, unless core bytes collide |
| `ChainRuns.PathDoesNotMatter` | clients/rust/crates/rubin-node/src/sync_reorg.rs:804-860 | two runs that end on the same chain end in the same state and undo records, unless core bytes collide |
| `DaSet.RunVector` | conformance/runner/run_cv_bundle.py:859-906 | the event loop refines the machine and stops at the first unknown event |
| `DaSet.CompletenessIsExact` | conformance/runner/run_cv_bundle.py:859-906 | over all runs, phase C holds exactly when a commit is seen and all chunks are present, if and only if the chunk count is not negative and the initial chunks are in range |
| `DaSet.FailingRun` | conformance/runner/run_cv_bundle.py:862-864 | outside that condition there is a run that breaks it |
| `DaSet.StepValid` | conformance/runner/run_cv_bundle.py:871-903 | every step keeps the invariant, pin exactly in C included, never leaves C or EVICTED, and answers a block check by the phase |
| `DaSet.FinalPhases` | conformance/runner/run_cv_bundle.py:871-903 | over any continuation C and EVICTED are kept and earlier answers stay |
| `DaSet.AnswersAreMonotone` | conformance/runner/run_cv_bundle.py:902-903 | once a block check answers yes all later ones do, and none does before C |
| `DaSet.CounterIsExact` | conformance/runner/run_cv_bundle.py:866-901 | in A and B the counter is the time to live less the blocks ticked in the current phase |
| `DaSet.EvictionIsExact` | conformance/runner/run_cv_bundle.py:892-901 | a step evicts if and only if it is a tick in A or B that brings the blocks of the phase to the time to live |
| `DaSet.SurvivalBound` | conformance/runner/run_cv_bundle.py:866-901 | a set still in A or B has seen at most twice the time to live less one, over the one possible reset |
| `DaSet.SurvivalBoundIsReached` | conformance/runner/run_cv_bundle.py:866-901 | that bound is reached |
| `DaSet.TickFreeOutcome` | conformance/runner/run_cv_bundle.py:871-903 | without ticks the result is a function of which chunks arrived and whether a commit did |
| `DaSet.OrderDoesNotMatter` | conformance/runner/run_cv_bundle.py:871-903 | every reordering of a tick-free run ends in the same machine |
| `DaSet.RetainOnCommit` | conformance/runner/run_cv_bundle.py:1212-1226 | the missing list holds exactly the absent indices, each once in ascending order, and the derived phase follows from it |
| `DaSet.RetentionAgrees` | conformance/runner/run_cv_bundle.py:1212-1226 | that phase is the one the machine reaches on a single commit |
| `LeanScan.SkipQuoted` | rubin-formal/tools/check_formal_registry_truth.py:109-113 | the string loop ends where the string does, escapes included |
| `LeanScan.SkipBlock` | rubin-formal/tools/check_formal_registry_truth.py:118-127 | the depth loop ends where the nested comment does |
| `LeanScan.NextToken` | rubin-formal/tools/check_formal_registry_truth.py:100-128 | one turn finds the token and whether it is kept |
| `LeanScan.ScanLean` | rubin-formal/tools/check_formal_registry_truth.py:97-134 | the scanner loop refines the recursive scan |
| `LeanScan.PositionsPreserved` | tools/check_formal_coverage.py:190-238 | for every text the scan keeps length and line breaks and changes characters to blanks only |
| `LeanScan.ScansCompose` | tools/check_formal_coverage.py:190-238 | scanning a scanned text again is one scan with both requests, for every nesting of comments, strings and raw strings |
| `LeanScan.StripThenBlank` | tools/check_formal_coverage.py:190-238 | both forms are idempotent, and blanking after stripping comments is blanking directly |
| `LeanScan.BlankedHasNoOpener` | tools/check_formal_coverage.py:190-238 | after blanking no quote and no comment opener is left anywhere |
| `GoSanitize.Turn` | tools/check_crypto_backend_policy.py:357-477 | one turn of the state machine consumes and renders exactly one piece |
| `GoSanitize.SanitizeGoSource` | tools/check_crypto_backend_policy.py:357-477 | the loop refines the recursive sanitiser |
| `GoSanitize.PositionsPreserved` | tools/check_crypto_backend_policy.py:357-477 | for every text length and line breaks are kept and characters change to blanks only |
| `GoSanitize.SanitizeComposes` | tools/check_crypto_backend_policy.py:357-477 | sanitising twice is sanitising once with both requests, so each form is idempotent |
| `GoSanitize.NoQuoteOrOpenerLeft` | tools/check_crypto_backend_policy.py:357-477 | with literals stripped no quote and no comment opener is left |
| `GoCaseBody.SliceCaseBody` | tools/check_crypto_backend_policy.py:565-574 | the selected lines are joined with the head cut after the first marker |
| `GoCaseBody.CaseBodiesAlign` | tools/check_crypto_backend_policy.py:565-619 | offsets in the sanitised case body index the raw one if and only if the marker is first found at the same column of both head lines |
| `GoCaseBody.CommentedMarkerMisaligns` | tools/check_crypto_backend_policy.py:565-619 | a comment that quotes the marker earlier on the head line breaks the alignment |
| `ImportGraph.SourceImportReachability` | rubin-formal/tools/check_formal_registry_truth.py:147-172 | on every finite import graph the walk ends with exactly the existing sources reachable from the root and exactly the followed names that have none |
| `ImportGraph.CollectImports` | tools/check_formal_coverage.py:406-418 | the push-marked walk ends with exactly the names below the root that reachable sources import |
| `ImportGraph.WalksAgree` | tools/check_formal_coverage.py:409-418 | the two walks agree on existing sources other than the root, and what one reports missing is what the other names without a source |
| `TxHexFrom.ApplyMutations` | conformance/runner/run_cv_bundle.py:619-642 | the in-place mutation loop refines the mutation function |
| `TxHexFrom.MutationsAreExact` | conformance/runner/run_cv_bundle.py:619-642 | length is kept, every byte is the last one written to its offset or unchanged, and the first fault decides the error |
| `TxHexFrom.MaterializeTx` | conformance/runner/run_cv_bundle.py:596-642 | the guarded recursion refines the resolution function on texts: own text as it is, taken text decoded, mutated and written again |
| `TxHexFrom.TakenTextIsHex` | conformance/runner/run_cv_bundle.py:618-642 | a text obtained through a reference is always hex, so only an own text can be unreadable |
| `TxHexFrom.Depth` | conformance/runner/run_cv_bundle.py:604-618 | resolution goes at most as deep as there are vectors not yet seen |
| `TxHexFrom.RecursionIsExact` | conformance/runner/run_cv_bundle.py:608-617 | recursion is reported for exactly the first reference that names an id a second time |
| `TxHexFrom.RecursionMeansEndless` | conformance/runner/run_cv_bundle.py:604-618 | on every reference graph recursion is reported if and only if the references never end, and otherwise they end within the number of vectors |
| `TxHexFrom.NotFoundMeansDangling` | conformance/runner/run_cv_bundle.py:609-611 | a missing reference is reported if and only if the chain runs into an id no vector has |
| `ForkChoice.SumWork` | conformance/runner/run_cv_bundle.py:1617-1630 | the inner loop is the work sum, or the failure of the first bad target |
| `ForkChoice.Select` | conformance/runner/run_cv_bundle.py:1597-1637 | the loop fails with the first bad chain's failure, and otherwise returns a chain beaten by none and ahead of every earlier equal |
| `ForkChoice.OrderDoesNotMatter` | conformance/runner/run_cv_bundle.py:1597-1637 | any two listings of the same chains select the same work and tip, and the same chain when work and tip tell chains apart |
| `ForkChoice.FailureIsOrderFree` | conformance/runner/run_cv_bundle.py:1597-1637 | a listing fails in every order or in none |
| `ForkChoice.GrowingChainWins` | conformance/runner/run_cv_bundle.py:1617-1630 | a chain with one more target beats its former self whatever its tip |
| `ForkChoice.NodeAndRunnerAgree` | clients/rust/crates/rubin-consensus/src/fork_choice.rs:10-29 | the node's limit check never fires, so node and runner give every 32-byte target the same work or failure |
| `ForkChoice.WorkAppends` | clients/rust/crates/rubin-node/src/sync_reorg.rs:661-667 | work is additive along a chain, so the ancestor's work plus the branch's is the work of the whole candidate |
| `ForkChoice.ShouldSwitch` | clients/rust/crates/rubin-node/src/sync_reorg.rs:644-681 | the node's decision from ancestor work and branch alone is, for every chain of that work below the branch, the preference between the whole candidate and the current tip |
| `ForkChoice.FollowingSelects` | clients/rust/crates/rubin-node/src/sync_reorg.rs:497-581 | a node that meets candidates one by one and switches to better ones ends on the chain the runner selects from all of them |
| `ForkChoice.UsableWork` | clients/rust/crates/rubin-consensus/src/fork_choice.rs:10-29 | every usable target adds at least one unit of work |
| `TipBinding.ReplayIsLinked` | clients/rust/crates/rubin-consensus/src/block_basic/header.rs:21-28 | in a chain that replays every block after the first names the block before it |
| `TipBinding.TipBindsHeaders` | clients/rust/crates/rubin-consensus/src/block_basic/header.rs:21-28 | two linked chains with one tip hash have the same headers, counted back from it, as far as both go, unless headers collide |
| `TipBinding.ConnectFollows` | clients/rust/crates/rubin-consensus/src/connect_block_inmem.rs:162-398 | blocks with the same header and cores lead from one state to one state, whatever rules accepted each and whatever their witnesses |
| `TipBinding.HeadersFixState` | clients/rust/crates/rubin-consensus/src/block_basic.rs:67-93 | two replaying chains with the same headers end in the same state, unless strings hashed for their blocks collide, when the body check compares the block's commitments |
| `NodeChoice.MeetChain` | clients/rust/crates/rubin-node/src/sync_reorg.rs:497-681 | what a node does with a chain, decided from ancestor work and branch, is the choice between whole chains followed by the switch at the last common block |
| `NodeChoice.ReplayIsUsable` | clients/rust/crates/rubin-consensus/src/pow.rs:118-138 | when the header check refuses a zero target, every target of a replaying chain is usable, so its work is defined |
| `NodeChoice.ForkSwitch` | clients/rust/crates/rubin-node/src/sync_reorg.rs:685-800 | a switch at a common prefix ends faithfully on the met chain if that replays and changes nothing otherwise, unless core bytes collide |
| `NodeChoice.EndsOnBest` | clients/rust/crates/rubin-node/src/sync_reorg.rs:497-581 | for any list of chains met, valid or not, the node ends faithfully on a met chain that replays, if any does, and no met chain of its genesis that replays beats it, unless core bytes collide |
| `NodeChoice.NodesConverge` | clients/rust/crates/rubin-node/src/sync_reorg.rs:497-581 | two nodes that met the same chains of one genesis, in any orders with any repetitions and any invalid ones, end on the same work and tip, unless core bytes collide |
| `NodeChoice.RankBindsHeaders` | clients/rust/crates/rubin-node/src/sync_reorg.rs:644-681 | chains of one work and one tip have the same length and the same headers, unless headers collide |
| `NodeChoice.NodesShareState` | clients/rust/crates/rubin-node/src/sync_reorg.rs:497-581 | two such nodes are on the same headers block by block and hold the same chain state, unless strings hashed for the blocks collide |
| `NodeChoice.NodeAgreesWithRunner` | conformance/runner/run_cv_bundle.py:1597-1637 | the node ends on the work and tip that the runner selects from the met chains that replay, unless core bytes collide |
| `HexText.HexOrder` | tools/check_conformance_fixtures_drift.py:870-880 | lower-case hex text sorts exactly as the bytes it spells |
| `HexText.FromHexOfHex` | conformance/runner/run_cv_bundle.py:619-642 | the lenient reader reads back whatever bytes are written as hex |
| `ForkChoice.GateAgrees` | tools/check_conformance_fixtures_drift.py:870-880 | on all hash texts the gate's two-tip test is: both works are u64 and the runner prefers the branch |
| `ForkChoice.GateAgreesWithSelection` | tools/check_conformance_fixtures_drift.py:870-880 | the gate accepts a branch exactly when both works are u64 and listing it after the previous tip makes it the winner |
| `ForkChoice.GateRefusesHeavyWinner` | tools/check_conformance_fixtures_drift.py:870-880 | a branch of 2^64 work or more wins over any lighter tip and the gate refuses it |
| `ForkChoice.LowTargetIsHeavy` | tools/check_conformance_fixtures_drift.py:870-880 | one block with a target up to 2^192 has that much work |
| `ForkChoice.FirstCandidateWins` | tools/check_conformance_fixtures_drift.py:606-637 | the gate publishes the first of two equal-work candidates exactly when fork choice prefers it |
| `Cleanup.CheckIdentity` | tools/check_conformance_fixtures_drift.py:380-393 | comparing neighbours accepts exactly the identities with hash texts and strictly ascending u16 chunk indices |
| `Cleanup.Classify` | tools/check_conformance_fixtures_drift.py:399-446 | which stage refuses a case, the owner-token stage included, and otherwise the two wanted counts |
| `Cleanup.CleanupCounts` | tools/check_conformance_fixtures_drift.py:399-440 | without a fault removals plus no-ops are the distinct included sets plus the records invalid but not included; a fault makes removals zero and leaves no-ops |
| `GroupBinding.BindGroups` | tools/check_conformance_fixtures_drift.py:544-563 | the gate accepts if and only if every group matches exactly one row and every row exactly one group, and then maps each row to its group's sets |
| `GroupBinding.BoundRowsAreDistinct` | tools/check_conformance_fixtures_drift.py:544-563 | in an accepted summary block ids are pairwise distinct |
| `DiffStatus.ParserAcceptsExactly` | tools/ci_test_relevance.py:53-89 | a diff is accepted if and only if it renders a non-empty list of valid records, whose paths come back in order |
| `DiffStatus.ParseForTests` | tools/ci_test_relevance.py:53-89 | the test gate's loop accepts exactly what the parser accepts, with the same paths |
| `DiffStatus.ParseForFormal` | tools/ci_formal_relevance.py:53-84 | the formal gate's loop does, with its weaker path test |
| `DiffStatus.GatesParseAlike` | tools/ci_formal_relevance.py:53-84 | for every diff the test gate parses it if and only if the formal gate does and every returned path is a test path, and then the paths are the same |
| `DiffStatus.DotPathTellsGatesApart` | tools/ci_formal_relevance.py:80-81 | the bytes of a diff that adds a path with a dot part are parsed by the formal gate and refused by the test gate |
| `DiffStatus.TakeRecord` | tools/ci_test_relevance.py:72-88 | one record is taken with its paths decoded and tested, or the record ends the parse |
| `DiffStatus.DecideTests` | tools/ci_test_relevance.py:92-119 | the test gate skips if and only if all checks pass, the diff parses and no path is an input |
| `DiffStatus.ClassifyPaths` | tools/ci_formal_relevance.py:119-126 | the scan runs on an empty list or on any input path |
| `DiffStatus.DecideFormal` | tools/ci_formal_relevance.py:128-159 | the formal gate skips if and only if all checks pass, the diff parses and no path is an input |
| `DiffStatus.SkipIsSafe` | tools/ci_test_relevance.py:92-119 | after a skip every path of every record, both sides of a rename or copy, is outside the inputs |
| `PeerScore.RunEvents` | conformance/runner/run_cv_bundle.py:1033-1040 | the loop is the clamped fold, and fails exactly on an unknown event |
| `PeerScore.RunDecay` | conformance/runner/run_cv_bundle.py:1042-1047 | one decay step per 144 blocks |
| `PeerScore.FoldIsTame` | conformance/runner/run_cv_bundle.py:1033-1040 | from two start scores in range, any event list keeps both in range and in order and brings them no further apart |
| `PeerScore.GraceNeverHurts` | conformance/runner/run_cv_bundle.py:1158-1165 | the score with grace is never below the score without |
| `PeerScore.DecayDistance` | conformance/runner/run_cv_bundle.py:1042-1047 | after k steps the distance to 50 is what is left of it after k, on the same side |
| `PeerScore.ScoreStaysOrdered` | conformance/runner/run_cv_bundle.py:1019-1047 | events and decay together keep the range, the order of start scores and the advantage of grace |

## Left out

- FixtureTx.BuiltDecodes: nonce, values, types and lengths are within the widths the builder writes; Python integers outside them raise in the source and are not modelled. Suite ids are any integers.
- DiffStatus.DecideTests: the literal tables of input paths, the text decoder and the answers of git and the file system are parameters.
- Cleanup.Classify: stages are told apart, but not the messages within a stage.
- GroupBinding.BindGroups: covers the grouped shape; the flat shape and the check that each stated alias is an object are easy and left out.
- ForkChoice.Select: hex parsing of tips and targets is represented by its outcome; a trailing line break that a pattern ending in `$` admits is not modelled.
- ImportGraph.SourceImportReachability: sources are identified by module name; symbolic links and file reading are not modelled.
- LeanScan.ScanLean: line breaks are `\n` only.
- GoCaseBody.SliceCaseBody: line breaks are `\n` only, and the line range is the one the caller found.
- ChainState.Chain.ConnectBlock: proof of work and target, block commitments, times and limits, covenant data and signatures enter as arbitrary rule predicates. In `ChainRuns` they may differ from block to block and read the timestamp window at the block's place, so rules that read a block's ancestors are included, because a block names its parent. `NodeChoice` asks of them that a zero target is refused and, for the state, that the block's commitments are checked.
- Utxo.ApplyNonCoinbaseTx: the signature checks of all inputs are one rule predicate, so the first failing input among them is not told apart.
- ChainRuns.ApplyPreferredBranch: the block store and the mempool around the switch are not modelled.
- NodeChoice.MeetChain: a delivered block is met as the chain that ends with it; storing side blocks and their validation before storing are not modelled.
- Parallel signature verification and its shadow validation: concurrency over checks that are parameters here.
- Persistence: block store, undo files, chain-state JSON and crash recovery.
- Peer-to-peer relay, mempool, mining, RPC and the command-line tools.
- The Go client: its consensus code mirrors the Rust code modelled here.
- Fill percentages, telemetry rates and other floating-point vectors.
- Remaining vector operations of the runner (orphan limits, prefetch caps, eviction tie-break, duplicate commits, fee totals, timestamp bounds): short arithmetic checks.
- Pinned hashes, census numbers and allowlists in the gates: constants.
