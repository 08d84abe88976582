# Proofs about the rdPoS node

This project models the core of a C++ blockchain node in Dafny and proves properties of the model: its wire
codecs, its Merkle trees, the rdPoS consensus, the execution of blocks on the account table, the journals and
indexes under it, and two contract templates. `dafny verify dfyconfig.toml` checks
the whole project.

How the parts fit together:

- `Words`, `Int256`, `Spans`: base-256 arithmetic, the signed word codec, byte strings at an offset.
- `Abi`, `AbiExact`, `AbiTypeString`: the ABI encoder and decoder over types as data, the type lists they bring
  back, and the printer and parser of type strings.
- `Rlp`, `Tx`, `ValidatorTx`, `Block`: transactions and blocks on the wire, signing included.
- `RlpStandard`, `TxBinding`, `BlockBinding`: the wire format against the published one, what accepted transactions
  and blocks satisfy, and what their hashes commit to.
- `Merkle`: sorted-pair trees with proofs.
- `RandomGen`, `RdPos`, `RdPosRuns`, `Commitments`, `Producer`: the seeded shuffle, the commit/reveal mempool, block
  validation, why a reveal is fixed by its commit, and the block producer.
- `Sums`, `ContractAddress`, `Accounts`, `Transfers`, `Cuts`: totals of maps, processing of transactions, every
  account behind a transaction or a block, blocks cut short by an exception.
- `State`, `StateRuns`, `Acceptance`: the state with its mempool, runs of it, and what it accepts.
- `EvmHost`, `EvmJournal`, `EvmWrites`: original/current pairs, access lists, commit and revert, and what is read
  back.
- `Storage`, `StorageRuns`, `StorageTiers`: the chain of recent blocks and its indexes, the cache and the database.
- `Overlay`: native balances during a contract call.
- `Erc721Mint`, `NftRights`, `Erc20Wrapper`, `WrapperRuns`, `TokenEffects`: contract templates as state machines, who
  may do what, and what each call changes.
- `Outcomes`, `Crypto`: results of C++ code, and the cryptography as parameters.

Conventions. Objects whose methods change their fields are classes; each method is proved against a function on
the value of the object (`View()`), and the lemmas are about those functions. A C++ exception is `Throws` (or
`Threw` with the table it leaves behind), a read out of range is `Undefined`. `uint256_t` is checked: an
operation that leaves its range throws. `uint64_t` wraps. sha3, signing and key recovery are arbitrary functions;
where a property needs two inputs of sha3 to be told apart, it asks so only for the byte strings actually hashed.
Containers without an order are walked in an arbitrary order.

Where the code does not do what its surroundings promise, the code is modelled as it is, and an if-and-only-if
over all inputs says when it does:

- data of 55 bytes, short lists and wide integers on the wire: `Tx.TxRoundTrip`, `Tx.ValRoundTrip`;
- single low bytes, written with a length byte that the published RLP leaves out: `RlpStandard.SignedStandardExactly`,
  `RlpStandard.ValidatorStandardExactly`;
- negative multiples of 256 as signed words: `Int256.IntWordRoundTrip`, `Abi.AbiRoundTrip`;
- Merkle nodes without a sibling: `Merkle.MerkleCompleteness`;
- a 16-bit nesting counter in type strings: `AbiTypeString.ComponentsOfPrinted`;
- contract addresses of large nonces: `ContractAddress.SamePreimage`;
- transactions and blocks cut short by an exception: `Accounts.ProcessEndsExactly`, `Cuts.CutExactly`; what a cut
  does to the mempool: `StateRuns.CutPoolExactly`, and over runs `StateRuns.RunSoundExactly`;
- a plain transfer the sender cannot afford: `Accounts.TransferConservesExactly`;
- a reused transaction hash: `EvmJournal.RevertRestoresExactly`;
- height maps behind `popBack` or an emptied chain: `StorageRuns.RunAgreesExactly`,
  `StorageRuns.PopBackFreesNothingElse`, `StorageRuns.EmptiedChainFreesNothingElse`;
- a block fetched into the cache, which hides its transactions: `StorageTiers.CachedBlockExactly`;
- a rarity that is never drawn: `NftRights.RarityExactly`;
- a wrapper that never pays out a whole balance: `WrapperRuns.PaidOutExactly`.

Tuples inside static tuples are miscounted by the ABI encoder. Where every component list is counted right, every
value comes back (`Abi.AbiRoundTrip`). The converse over types, `AbiExact.RoundTripsExactly`, holds wherever a
miscount shows in the first dynamic component of its list: that component does not itself start with an offset
word, or the miscounted offset leads to a static word. It is not true of every list: `AbiExact.LuckyRoundTrips`
names a miscounted one that brings every value back.

## Model

| member | source | states |
|---|---|---|
| Words.FromBigEndian64 | src/utils/utils.h:487-493 | the loop over a 64-bit accumulator gives the big-endian value modulo 2^64 |
| Words.FromBigEndian256 | src/utils/utils.h:487-493 | over a checked 256-bit accumulator it throws exactly when the value does not fit, and is the value otherwise |
| Words.BytesRequired | src/utils/utils.h:525-530 | the shifting loop counts the base-256 digits |
| Words.UintToBytes | src/utils/utils.h:537-545 | the buffer filled backwards holds the digits without leading zeros |
| Words.MinBytesValue | src/utils/utils.h:537-545 | the minimal digits have the value of the number |
| Words.MinBytesNoLeadingZero | src/utils/utils.h:537-545 | the minimal digits never start with a zero byte |
| Words.FixedOfBE | src/utils/utils.cpp:579-619 | writing the value of k bytes as k bytes gives the bytes back |
| Words.PadLeftIsFixed | src/utils/utils.cpp:733-739 | left padding of minimal digits is the fixed-width form |
| Int256.EncodeUint | src/contract/abi.cpp:10-17 | encodeUint writes the 32-byte big-endian word |
| Int256.EncodeInt | src/contract/abi.cpp:19-32 | complement and carry loops produce the two's-complement word for every n in [-2^255, 2^255) |
| Int256.BytesToInt256 | src/utils/utils.cpp:657-678 | the borrow loop computes DecodeIntWord, which is the signed value minus the re-subtracted borrows |
| Int256.IntWordValue | src/contract/abi.cpp:19-32 | the encoded word of n has the value n, or 2^256 + n for a negative n, and its top bit set exactly for a negative n |
| Int256.IntWordRoundTrip | src/contract/abi.cpp:19-46 | decoding an encoded n gives n when n >= 0 and n - (256 + ... + 256^k) when n < 0 ends in k zero bytes: n itself exactly when n >= 0 or n is no multiple of 256 |
| Int256.MinusTwoFiftySixFails | src/utils/utils.cpp:667-673 | -256 comes back as -512 |
| Abi.Encode | src/contract/abi.h:391-538 | TypeEncoder for every type computes the head/tail encoding Enc |
| Abi.EncodeItems | src/contract/abi.h:478-497 | the encodeItem loop with result, dynamicBytes and nextOffset yields heads and tails |
| Abi.EncodeVector | src/contract/abi.h:500-531 | a vector is its length followed by its elements, laid out like a tuple of copies |
| Abi.HeadsLength | src/contract/abi.h:131-148 | the head part of a list is exactly as long as its types say |
| Abi.FlatIsCounted | src/contract/abi.h:131-148 | calculateTotalOffset is the head length for type lists in which no static tuple holds a tuple |
| Abi.OffsetsPointAtTails | src/contract/abi.h:478-564 | the i-th offset word stands in the i-th head, counted on from the start of the count by the tails before it, and the i-th tail stands behind the heads and all earlier tails |
| Abi.Decode | src/contract/abi.h:754-949 | the decoders that advance an index compute Dec, including every length check that throws |
| Abi.WordRoundTrip | src/contract/abi.h:391-470 | a word of any kind comes back exactly when it is no negative multiple of 256 |
| AbiExact.WordsAre | src/contract/abi.h:391-470 | the word of every kind of value: numbers in two's complement, addresses and truth values at the right end, hashes as they are |
| AbiExact.BytesAre | src/contract/abi.h:391-470 | a byte string is its length, its bytes and zeros to a multiple of 32, a whole word of them for none |
| AbiExact.VectorsAre | src/contract/abi.h:500-531 | a vector is its length and then a list of its elements with offsets counted from behind the length |
| AbiExact.StaticInPlace | src/contract/abi.h:478-497 | a static component stands in place in the head |
| Abi.AbiRoundTrip | src/contract/abi.h:789-991 | decodeData(encodeData(v) ++ rest) is v passed through the word codec, and equals v exactly when every signed word survives it |
| Abi.FlatTypesRoundTrip | src/contract/abi.h:538-564 | the round trip for every list of words, bytes, vectors and tuples without a tuple inside a static tuple |
| Abi.NestedStaticTupleFails | src/contract/abi.h:131-148 | a static tuple inside a static tuple before a dynamic value: decoding its own encoding throws |
| AbiExact.OffsetsHoldExactly | src/contract/abi.h:131-148 | the offset word of a dynamic component, as the decoder reads it, is the position of its tail exactly when its list is counted |
| AbiExact.RoundTripsExactly | src/contract/abi.h:131-148 | a type list brings back every value whose signed words survive exactly when every component list in it is counted, for all lists in which a miscount shows in the first dynamic component |
| AbiExact.LuckyRoundTrips | src/contract/abi.h:131-148 | a miscounted type list that brings back every value: counting right is not necessary in general |
| AbiTypeString.PrintedShape | src/utils/jsonabi.cpp:10-34 | isTuple, isArray and countTupleArrays are exact on every printed type |
| AbiTypeString.CountBrackets | src/utils/jsonabi.cpp:25-34 | the backward loop computes CountTupleArrays |
| AbiTypeString.SplitTupleTypes | src/utils/jsonabi.cpp:36-60 | the splitting loop with its 16-bit counter computes GetTupleTypes |
| AbiTypeString.GetTupleTypes | src/utils/jsonabi.cpp:36-60 | the pieces together are shorter than the type string |
| AbiTypeString.TupleTypesOfPrinted | src/utils/jsonabi.cpp:36-60 | getTupleTypes returns exactly the printed components unless the counter wraps at a nested comma, and otherwise one piece more per such comma |
| AbiTypeString.HandleTupleComponents | src/utils/jsonabi.cpp:62-82 | the recursive loop terminates and computes Handle |
| AbiTypeString.ComponentsOfPrinted | src/utils/jsonabi.cpp:62-82 | the component tree of the printed types is the structural one exactly when no comma stands under more than 2^16 parentheses |
| AbiTypeString.ReprintOfStructure | src/contract/abi.h:260-300 | the component tree determines the string that TypeName printed |
| Rlp.IntFieldReads | src/utils/tx.cpp:35-51 | an integer field is read back, cut to 64 bits where the reader is 64-bit |
| Rlp.DataFieldReads | src/utils/tx.cpp:149-171 | a data field is read back, except one of exactly 55 bytes |
| Rlp.ListHeaderReads | src/utils/tx.cpp:17-33 | a list header is accepted exactly when the payload is longer than 55 bytes |
| Tx.TxRlpSerialize | src/utils/tx.cpp:239-390 | the write pass produces the type-2 list |
| Tx.TxSizesAgree | src/utils/tx.cpp:239-318 | the total of the size pass equals the bytes of the write pass |
| Tx.ParseTxBlock | src/utils/tx.cpp:10-211 | the raw constructor computes ParseTx |
| Tx.ParsedTxFits | src/utils/tx.cpp:10-199 | whatever is parsed has the widths of the members |
| Tx.SignTxBlock | src/utils/tx.cpp:213-237 | the signing constructor succeeds exactly when the key belongs to the sender and its signature verifies; the result is what SignedTx asks of a parsed transaction |
| Tx.TxRoundTrip | src/utils/tx.cpp:10-390 | parsing rlpSerialize(true) of a signed transaction gives every member back exactly when the payload exceeds 55 bytes, data does not have 55 bytes, and nonce and gas limit fit 64 bits |
| RlpStandard.UnsignedStandardExactly | src/utils/tx.cpp:239-390 | what is signed is the EIP-1559 payload of nine fields exactly when data is not a single byte below 0x80 |
| RlpStandard.SignedStandardExactly | src/utils/tx.cpp:239-390 | the signed serialization is the EIP-1559 payload of twelve fields exactly when moreover neither r nor s is between 1 and 0x7f |
| TxBinding.ParsedTxIsSigned | src/utils/tx.cpp:10-211 | every accepted transaction: widths, signature bounds, sender recovered from the signed bytes, hash of all bytes |
| TxBinding.TxBytesBind | src/utils/tx.cpp:239-390 | two bodies with the same bytes are the same |
| TxBinding.TxHashBinds | src/utils/tx.cpp:195-211 | two accepted transactions with the same hash are the same, unless the hash collides on their bytes |
| Tx.ValRlpSerialize | src/utils/tx.cpp:545-641 | the write pass of a validator transaction |
| Tx.ValSizesAgree | src/utils/tx.cpp:545-600 | its size pass agrees with its write pass |
| Tx.ParseTxValidator | src/utils/tx.cpp:411-519 | its raw constructor computes ParseVal |
| Tx.ParsedValFits | src/utils/tx.cpp:411-509 | whatever is parsed of a validator transaction has the widths of the members |
| Tx.SignTxValidator | src/utils/tx.cpp:521-543 | its signing constructor succeeds under the same condition and seals v = 2 chainId + 35 + recovery id |
| Tx.SplitOfSealedV | src/utils/tx.cpp:497-509 | chain id and recovery id are recovered from v for chain ids from 1 without wrap |
| Tx.ValRoundTrip | src/utils/tx.cpp:411-641 | the round trip of validator transactions, exactly when the payload exceeds 55 bytes, data does not have 55 bytes, the chain id is at least 1 and v does not wrap |
| RlpStandard.ValidatorStandardExactly | src/utils/tx.cpp:545-641 | a signed validator transaction is the RLP list of data, height, v, r and s under the same condition and for a v above zero |
| TxBinding.ParsedValIsSigned | src/utils/tx.cpp:411-519 | every accepted validator transaction: chain id and recovery id from v, signature bounds, sender and hash |
| TxBinding.ValHashBinds | src/utils/tx.cpp:495-519 | two accepted validator transactions with the same hash are the same, unless the hash collides on their bytes |
| Merkle.Merkle.constructor | src/utils/merkle.cpp:29-39 | the tree of a leaf list: layer construction terminates and computes Layers |
| Merkle.Merkle.NewLayer | src/utils/merkle.cpp:10-27 | one layer of sorted pairs, an unpaired last node carried up |
| Merkle.Merkle.GetProof | src/utils/merkle.cpp:41-54 | the sibling path, undefined where a sibling is missing |
| Merkle.JoinIsUnorderedPair | src/utils/merkle.cpp:15-22 | the hashed pair determines its two members up to order |
| Merkle.JoinIsSorted | src/utils/merkle.cpp:15-22 | of a pair the smaller number is hashed first |
| Merkle.RootOfThree | src/utils/merkle.cpp:10-39 | of three leaves the third waits for the pair of the first two |
| Merkle.ProofCompleteness | src/utils/merkle.cpp:41-69 | a leaf whose path has a sibling at every level verifies against the root |
| Merkle.MerkleCompleteness | src/utils/merkle.cpp:41-69 | every index verifies exactly when the leaf count is a power of two |
| Merkle.MerkleBinding | src/utils/merkle.cpp:29-39 | equal roots mean the same multiset of leaves and the same count, without a collision among the byte strings hashed, for any two sizes |
| Merkle.MerkleSoundness | src/utils/merkle.cpp:56-69 | a proof of any length accepted for a root proves a hash that occurs in its tree |
| Merkle.MerkleLayerSoundness | src/utils/merkle.cpp:56-69 | with 2^k leaves an accepted proof of length k is for a hash of the leaf layer |
| Block.Count | src/utils/block.cpp:24-41 | counting the frames of the transaction range |
| Block.ParseInFour | src/utils/block.cpp:54-100 | the four-chunk parse used above 2000 transactions yields exactly the sequential list, failures included |
| Block.Deserialize | src/utils/block.cpp:11-143 | the deserializing constructor computes Parse |
| BlockBinding.AcceptedExactly | src/utils/block.cpp:11-143 | a block is accepted exactly when its frames parse into its lists, both Merkle roots and the randomness in the header are those of the lists and the signature is well formed; hash and key are those of the header bytes |
| BlockBinding.AcceptedHeights | src/utils/block.cpp:103-112 | every validator transaction of an accepted block has its height |
| BlockBinding.HashBinds | src/utils/block.cpp:113-133 | two accepted byte strings with the same block hash have the same header and hold transactions and validator transactions with the same hashes as often, without a collision or a zero hash among the bytes hashed |
| BlockBinding.HashBindsTxs | src/utils/block.cpp:113-133 | they hold the same transactions, up to order, if the bytes of no two of them collide either |
| Block.Block.SerializeBlock | src/utils/block.cpp:157-185 | header, patched start of the validator transactions, and both lists of frames |
| Block.Block.Finalize | src/utils/block.cpp:211-233 | refuses a finalized block or an older timestamp, and otherwise seals roots, randomness, hash and signature |
| Block.FinalizedIsSealed | src/utils/block.cpp:211-233 | a finalized block passes every check of the deserializing constructor |
| Block.BlockRoundTrip | src/utils/block.cpp:11-185 | deserializing a finalized block gives it back exactly when each transaction round-trips and the validator transactions carry its height |
| Block.GetTxFromBlockWithIndex | src/core/storage.cpp:116-128 | the frame-skipping loop finds the transaction TxAt names |
| Block.SoughtIsParsed | src/core/storage.cpp:116-128 | it equals the i-th transaction of the parsed block |
| RandomGen.RandomGen.Shuffle | src/utils/randomgen.h:56-65 | the loop over seeds and swaps computes Shuffled, in bounds, and leaves the advanced seed |
| RandomGen.ShufflePermutes | src/utils/randomgen.h:56-65 | a shuffle keeps the multiset |
| RandomGen.DrawsAreDetermined | src/utils/randomgen.h:56-65 | different draws give different orders |
| RandomGen.EveryOrderIsReached | src/utils/randomgen.h:56-65 | every order is reached by some draws, so by exactly one sequence of draws |
| Commitments.SameOrderExactly | src/core/rdpos.cpp:213-225 | two randomness values shuffle the validators alike exactly when all numbers drawn agree |
| ValidatorTx.ParseTxSeedList | src/core/rdpos.cpp:299-309 | the hash of the revealed seeds in list order, the zero hash for no transactions |
| RdPos.RdPos.AddValidatorTx | src/core/rdpos.cpp:235-286 | the mempool and the returned flag are those of Add |
| RdPosRuns.AddTakesExactly | src/core/rdpos.cpp:235-286 | what is taken, in terms of hash, height, the senders in randomList[1..min] and the first four bytes of data; otherwise the mempool stays, and the flag says whether the transaction is there |
| RdPos.RdPos.ProcessBlock | src/core/rdpos.cpp:213-225 | clears the mempool and reshuffles by the block randomness; an unfinalized block throws and changes nothing |
| RdPos.RdPos.ValidateBlock | src/core/rdpos.cpp:65-211 | accepts exactly the blocks signed by randomList[0] that hold each participant's commit and matching reveal in order |
| Commitments.AcceptedExactly | src/core/rdpos.cpp:65-211 | what is accepted, in terms of signer, order of senders, heights, function bytes, data sizes, distinct hashes, and the hash of each reveal against its commit |
| Commitments.SeedOfAccepted | src/core/rdpos.cpp:299-309 | the randomness of an accepted block is the hash of its reveals in the order of the participants |
| Commitments.CommitsFixTheSeed | src/core/rdpos.cpp:181-206 | two blocks accepted on one list whose commits carry the same data have the same randomness, unless two seeds revealed for one commit collide |
| RdPos.EmplacedPairsOf | src/core/rdpos.cpp:116-140 | the map of commits to reveals is full exactly when no two commits share a hash, and then holds every pair |
| RdPosRuns.ReachableIsOk | src/core/rdpos.cpp:213-286 | in every reachable state the list is a permutation of the validators, and the mempool holds next-height transactions of participants, one per functor and two per sender at most |
| RdPosRuns.MempoolBound | src/core/rdpos.cpp:264-284 | at most 2 minValidators transactions, with equality exactly when every participant has two of different functors |
| Producer.OrderByFunctor | src/core/blockchain.cpp:135-158 | an ordering loop terminates and picks one transaction of each participant in order |
| Producer.PairsAreOrderable | src/core/blockchain.cpp:135-158 | in a reachable mempool that holds the pairs both ordering loops can terminate |
| Producer.AssembledIsValid | src/core/state.cpp:267-321 | any block assembled from picked pairs and mempool transactions passes validateNextBlock exactly when its signer is randomList[0] |
| Producer.ReceivedIsValid | src/core/state.cpp:267-321 | a node in the same state, whatever its own mempool, that parses the serialized block gets that block exactly when its transactions round-trip, and then accepts it exactly when its signer is randomList[0] |
| Producer.DoValidatorBlock | src/core/blockchain.cpp:131-178 | the producer's own block validates for a timestamp not before the latest block's and the key of randomList[0], and is refused for an earlier timestamp |
| ContractAddress.SamePreimage | src/core/evmhost.hpp:219-236 | two creations derive from the same bytes exactly when they have the same creator and their nonces are equal, or both need a length prefix and have equally many digits |
| Accounts.ClassicCharges | src/core/state.cpp:181-213 | a plain transfer that passes the full check always ends, charges gasLimit * maxFee and lowers nobody else |
| Accounts.EvmCharges | src/core/state.cpp:127-180 | an EVM call or creation charges gasUsed * maxFee when 0 <= gasLeft <= gasLimit and nothing otherwise, succeeding or reverting, and throws only where its credit overflows |
| Accounts.ProcessCharges | src/core/state.cpp:110-217 | one transaction: nonce up by one, total down by the fee, other balances not lower |
| Accounts.ProcessEndsExactly | src/core/state.cpp:110-217 | one transaction ends without an exception exactly when a guard on the table before it holds off: a missing sender, an EVM value that overflows the receiver or exceeds the balance, or a refund that overflows the sender |
| Transfers.ProcessBalances | src/core/state.cpp:110-217 | every balance behind any transaction that ends, EVM, plain or native: what arrived or was given back is added, what the sender paid is taken away, a payable native call sets what it reports |
| Transfers.PassingBalances | src/core/state.cpp:127-213 | a passing transaction without a native call: the sender pays value and fee and the receiver gets the value, or, failing, the fee alone is paid |
| Transfers.ProcessNoncesAndCode | src/core/state.cpp:110-217 | the sender's nonce rises by one, no other does; the code is what a successful execution stored or what it was |
| Transfers.BlockBalances | src/core/state.cpp:323-352 | behind a block every account holds what it held, plus what it received, minus what it spent |
| Accounts.PreStateSuffices | src/core/state.cpp:323-352 | a block with distinct senders and no native call whose transactions pass the full check on the state before it is processed to the end, exactly unless the credit of an EVM-bound transaction overflows (never below a total of 2^256 without a payment to oneself); then every sender's nonce rises by one and the total falls by the fees |
| Accounts.UnaffordableMints | src/core/state.cpp:199-212 | a plain transfer the sender cannot afford ends exactly when its refund fits, and then creates its value: why senders must be distinct |
| Accounts.TransferConservesExactly | src/core/state.cpp:181-213 | a plain transfer ends with exactly its fee gone from the total if and only if the sender can afford it |
| Cuts.SmoothExactly | src/core/state.cpp:323-352 | a block is processed to the end exactly when the guard holds off at every transaction's turn |
| Cuts.CutExactly | src/core/state.cpp:323-352 | a block is cut short exactly when the guard stops some transaction at its turn |
| State.State.ValidateTransactionInternal | src/core/state.cpp:68-108 | the check with the mempool shortcut |
| Acceptance.CheckExactly | src/core/state.cpp:80-108 | the answer in terms of sender, cost in 256 bits, balance and nonce |
| State.State.ProcessTransaction | src/core/state.cpp:110-217 | the table, and how the call ends, are those of Process |
| State.State.RefreshMempool | src/core/state.cpp:219-241 | succeeds exactly when no check of a transaction outside the block overflows, and then keeps exactly those that still pass; otherwise it has kept some of them and nothing else |
| State.State.AddTx | src/core/state.cpp:379-387 | inserts what validates and is not there |
| Acceptance.AddTxExactly | src/core/state.cpp:379-387 | a transaction is taken into the mempool exactly when it is new and passes the full check |
| State.State.ValidateNextBlock | src/core/state.cpp:267-321 | accepts a block that follows the latest, passes rdPoS and holds only valid transactions |
| Acceptance.NextBlockExactly | src/core/state.cpp:267-321 | what is accepted, in terms of height, previous hash, timestamp, rdPoS and each transaction |
| Acceptance.AcceptedChain | src/core/state.cpp:267-321 | blocks accepted in turn form one chain: each names its predecessor, heights go up by one, times do not go back |
| State.State.ProcessNextBlock | src/core/state.cpp:323-367 | accounts, mempool, consensus and latest block behind every ending: with a sound mempool it finishes exactly when the block is valid and the guard stops none of its transactions; where the refresh throws the mempool is a part of the old one |
| State.SoundIsCheckable | src/core/state.cpp:219-241 | no check of the refresh overflows on a mempool whose transactions have passed before |
| StateRuns.RunKeepsSound | src/core/state.cpp:219-410 | over every run of addTx, addBalance and processNextBlock in which the guard of processTransaction stops no transaction of an accepted block, native calls included, each mempool transaction passes the full check in every state |
| StateRuns.CutShortExactly | src/core/state.cpp:323-352 | an accepted block is cut short exactly when the guard stops one of its transactions at its turn |
| StateRuns.CutPoolExactly | src/core/state.cpp:219-367 | behind a block cut short at transaction k without a native call the mempool is sound exactly when none of its transactions shares a sender with one of the first k |
| StateRuns.StepSoundExactly | src/core/state.cpp:219-410 | one event without native calls leaves a sound mempool sound exactly when it is harmless in that sense |
| StateRuns.RunSoundExactly | src/core/state.cpp:219-410 | over every run without native calls the mempool is sound in every state exactly when every event is harmless in its state |
| StateRuns.ShortcutIsExact | src/core/state.cpp:75-79 | in every state that a run reaches with the guard stopping nothing, the mempool shortcut answers what the full check would, for a transaction that shares its hash with no other one in the mempool |
| StateRuns.OrderlyBlocksFinish | src/core/state.cpp:323-352 | a condition on the state before an accepted block that keeps the guard off: distinct senders, no native call, no payment to oneself through the EVM, a total below 2^256 |
| Acceptance.RefreshExactly | src/core/state.cpp:219-241 | a processed block without native calls takes out of a sound mempool exactly its own transactions and those sharing a sender with one of them; all others stay |
| StateRuns.CutShortIsUnsound | src/core/state.cpp:132-136 | an accepted block cut short by the unguarded debit leaves a mempool transaction the full check refuses |
| EvmHost.EvmHost.SetStorage | src/core/evmhost.hpp:294-329 | the slot, the access list and the EIP-1283 status |
| EvmWrites.StatusExactly | src/core/evmhost.hpp:304-320 | added, modified and deleted are reported exactly for a changing value on a slot not changed before in the transaction |
| EvmHost.EvmHost.StoreContract | src/core/evmhost.hpp:182-190 | code, code hash and the created-address entry of a creation |
| EvmWrites.ApplyReadsBack | src/core/evmhost.hpp:182-329 | what a host call writes is read back, storage, transient storage, code, code hash, created address and log alike, and nothing else changes |
| EvmWrites.CallsReadBack | src/core/evmhost.hpp:182-329 | behind any host calls each read gives the last value written, or what was there |
| EvmWrites.TxReadsBack | src/core/state.cpp:138-180 | a committed transaction leaves what its calls wrote last, a reverted one what was there |
| EvmWrites.RunReadsBack | src/core/state.cpp:138-180 | over any sequence of transactions storage and code hold what the successful ones wrote last |
| EvmHost.EvmHost.Commit | src/core/evmhost.hpp:523-536 | the loops of commit over the access lists |
| EvmHost.EvmHost.Revert | src/core/evmhost.hpp:583-600 | the loops of revert over the access lists |
| EvmJournal.RunKeepsJournal | src/core/evmhost.hpp:294-329 | from a clean host every slot, code and transient storage that differs from its original is in an access list after any host calls |
| EvmJournal.RevertRestores | src/core/evmhost.hpp:561-600 | revert and revertCode restore all observable storage and code and leave a clean host |
| EvmJournal.RevertedCreations | src/core/evmhost.hpp:583-600 | what a revert leaves of the created addresses: all without a creation, else all but those under the transaction's hash |
| EvmJournal.RevertRestoresExactly | src/core/evmhost.hpp:561-600 | for any host calls a revert restores everything observable, created addresses included, exactly when the hash had created nothing before or the calls create nothing |
| EvmJournal.CommitKeeps | src/core/evmhost.hpp:523-559 | commit and commitCode keep the current values, and a following revert changes nothing |
| EvmJournal.FailuresLeaveNoTrace | src/core/state.cpp:138-180 | over any sequence of transactions in which no failing one creates a contract under a hash that has created one, the host ends as if only the successful ones had run |
| Storage.Storage.PushBack | src/core/storage.cpp:170-195 | refuses a block that does not follow the last one, else the chain and all five indexes |
| Storage.Storage.PushFront | src/core/storage.cpp:197-222 | the same at the front |
| Storage.Storage.PopBack | src/core/storage.cpp:234-241 | leaves the hash indexes without the block and the height maps as they are |
| Storage.Storage.PopFront | src/core/storage.cpp:243-250 | the same at the front |
| StorageTiers.PushBackStores | src/core/storage.cpp:170-195 | a push succeeds exactly for a successor; the block ends the chain and is found by hash and height with its transactions where these are new, a taken key keeps its entry |
| StorageTiers.PushFrontStores | src/core/storage.cpp:197-222 | the same at the front |
| StorageTiers.PopBackForgets | src/core/storage.cpp:234-241 | the last block leaves the chain, its hash and the hashes of its transactions are no longer found |
| StorageTiers.PopFrontForgets | src/core/storage.cpp:243-250 | the same at the front |
| Storage.Storage.GetBlockAt | src/core/storage.cpp:297-326 | the block at a height over all tiers, and what a database read puts into the cache |
| Storage.Storage.GetTx | src/core/storage.cpp:328-366 | the tuple of a transaction over all tiers: chain, cache and database (which enters the cache), or none for an unknown hash |
| Storage.Storage.GetTxByBlockHashAndIndex | src/core/storage.cpp:368-404 | the same by block hash and index, out-of-range indexes included |
| Storage.Storage.GetTxByBlockNumberAndIndex | src/core/storage.cpp:406-442 | the same by height and index |
| StorageTiers.TiersAgree | src/core/storage.cpp:328-442 | a stored transaction is found with the same tuple in the cache and in the database, by its own hash and by its block's, and what is found enters a cache that stays right |
| StorageTiers.CachedBlockExactly | src/core/storage.cpp:389-392 | through a cached block it is found exactly when it has been cached itself |
| StorageTiers.FetchedBlockHides | src/core/storage.cpp:286-293 | so a block fetched whole from the database makes a lookup throw that succeeded before |
| StorageRuns.RunKeepsHashes | src/core/storage.cpp:170-250 | over every run of pushes and pops with distinct hashes the deque is contiguous and both hash indexes are exact, popBack included |
| StorageRuns.RunKeepsHeights | src/core/storage.cpp:170-250 | with distinct hashes and without popBack the height maps hold exactly the blocks that have ever been in the chain, of which the chain is the end |
| StorageRuns.PushAgreesExactly | src/core/storage.cpp:170-222 | a push keeps every chain block's height mapped to its hash exactly when the height is free or already maps to the pushed block |
| StorageRuns.RunAgreesExactly | src/core/storage.cpp:170-250 | over every run of pushes and pops, popBack included, the heights agree with the chain in every state exactly when each successful push found its height free |
| StorageRuns.OrderlyRunIsGuarded | src/core/storage.cpp:170-250 | a run without popBack that continues what has been in the chain needs no such guard |
| StorageRuns.LookupsAgree | src/core/storage.cpp:328-442 | where the heights agree, the three lookups of an in-range transaction of the chain succeed with the same tuple; an index out of range throws |
| StorageRuns.HashLookupsAgree | src/core/storage.cpp:328-404 | popBack or not, the two lookups by hash answer alike; an index out of range throws |
| StorageRuns.HeightLookupAgreesExactly | src/core/storage.cpp:406-442 | the lookup by height answers like them exactly when the map names the block at its height |
| StorageRuns.PopBackFreesNothingElse | src/core/storage.cpp:234-241 | behind popBack a push keeps the heights in agreement exactly when it is the popped block |
| StorageRuns.EmptiedChainFreesNothingElse | src/core/storage.cpp:243-250 | on a chain that popFront has emptied, a push at the height of the last block keeps them exactly when it is that block |
| Overlay.ContractManager.SendTokens | src/contract/contractmanager.cpp:309-322 | populates both balances, refuses more than the sender shows, moves the amount |
| Overlay.ContractManager.CallContract | src/contract/contractmanager.cpp:102-160 | a throwing call leaves the accounts as they were, a payable one writes the overlay back |
| Overlay.ContractManager.ValidateCallContractWithTx | src/contract/contractmanager.cpp:182-226 | a dry run changes only the overlay and drops it in every outcome |
| Overlay.OverlayRefines | src/contract/contractmanager.cpp:289-322 | any sequence of sends and reads fails, reads and flushes exactly as the same transfers made directly on the accounts |
| Overlay.CallRefines | src/core/state.cpp:557-565 | flushing after a call conserves the total and matches the direct transfers |
| Erc721Mint.ERC721Mint.Mint | src/contract/templates/erc721mint.cpp:363-389 | the new state of a mint, or none |
| Erc721Mint.ERC721Mint.PreBurn | src/contract/templates/erc721mint.cpp:391-402 | the new state of a pre-burn, or none |
| Erc721Mint.ERC721Mint.Burn | src/contract/templates/erc721mint.cpp:404-431 | the new state of a burn, or none |
| Erc721Mint.ERC721Mint.TransferFrom | src/contract/templates/erc721.cpp:307-317 | the new state of a transfer, or none |
| Erc721Mint.UpdateKeepsBalances | src/contract/templates/erc721.cpp:165-179 | update_ keeps balances equal to the number of ids owned |
| Erc721Mint.ReachableIsOk | src/contract/templates/erc721mint.cpp:363-431 | in every reachable state each id below the counter is in exactly one of owned, pre-burned and burned, no other id in any; supply, balances and approvals agree |
| Erc721Mint.MintSucceedsExactly | src/contract/templates/erc721mint.cpp:363-389 | a mint fails only at the supply limit or for the zero address |
| Erc721Mint.BurnSucceedsExactly | src/contract/templates/erc721mint.cpp:404-446 | a burn depends on the pre-burned entry and the signature alone; its message can always be built |
| NftRights.TransferSucceedsExactly | src/contract/templates/erc721.cpp:307-317 | transferFrom succeeds exactly for a real receiver and the real owner, called by the zero caller, the owner, its operator or the approved address; the new state in terms of owners, approval and balances |
| NftRights.ApproveSucceedsExactly | src/contract/templates/erc721.cpp:225-234 | approve succeeds exactly for the zero caller, the owner or its operator, and sets one approval |
| NftRights.PreBurnSucceedsExactly | src/contract/templates/erc721mint.cpp:391-402 | preBurn succeeds exactly for the owner, and enters the token as pre-burned under its name |
| NftRights.MintGives | src/contract/templates/erc721mint.cpp:363-389 | a mint gives the next id to its receiver |
| NftRights.RarityExactly | src/contract/templates/erc721mint.cpp:377-383 | the rarity is 1 for a multiple of 100 and 0 otherwise; 2 is never drawn |
| NftRights.BurnMovesEntry | src/contract/templates/erc721mint.cpp:404-446 | a burn needs the signer's signature over id, user and rarity and moves the entry to the burned tokens |
| NftRights.MessageBinds | src/contract/templates/erc721mint.cpp:434-446 | the signed message determines id, user and rarity |
| NftRights.LostByRight | src/contract/templates/erc721.cpp:165-196 | over any run a token leaves its owner only by a call of its owner, its operator, the approved address or the zero caller |
| NftRights.OperatorsOfRun | src/contract/templates/erc721.cpp:278-287 | over any run an operator acts for an owner exactly when the owner's last word says so |
| NftRights.ApprovedByRight | src/contract/templates/erc721.cpp:225-234 | over any run an approved address was approved by the owner of that time, its operator or the zero caller |
| Erc20Wrapper.Erc20.Transfer | src/contract/templates/erc20.cpp:172-175 | moves the value or throws without a trace |
| Erc20Wrapper.Erc20.TransferFrom | src/contract/templates/erc20.cpp:203-209 | spends allowance and moves the value, or throws without a trace |
| Erc20Wrapper.Erc20.MintValue | src/contract/templates/erc20.cpp:148-151 | raises a balance and the supply together |
| TokenEffects.TransferExactly | src/contract/templates/erc20.cpp:172-175 | transfer succeeds exactly for an amount the caller has, and moves it |
| TokenEffects.TransferFromExactly | src/contract/templates/erc20.cpp:203-209 | transferFrom succeeds exactly for an amount the owner has and allows; it spends that much of the allowance and no other allowance changes |
| TokenEffects.ApproveSets | src/contract/templates/erc20.cpp:177-179 | approve sets one allowance |
| TokenEffects.MintExactly | src/contract/templates/erc20.cpp:148-151 | minting fails only where the supply overflows |
| TokenEffects.BurnExactly | src/contract/templates/erc20.cpp:153-156 | burning fails only for want of balance |
| Erc20Wrapper.Erc20Wrapper.TransferTo | src/contract/templates/erc20wrapper.cpp:77-85 | pays out of the recorded balance through the token, or nothing changes |
| Erc20Wrapper.Erc20Wrapper.Deposit | src/contract/templates/erc20wrapper.cpp:87-90 | takes the tokens and records them, or nothing changes |
| TokenEffects.PayoutMoves | src/contract/templates/erc20wrapper.cpp:67-85 | a payout lowers the caller's record, pays the receiver out of the wrapper's balance and changes no other record |
| TokenEffects.DepositMoves | src/contract/templates/erc20wrapper.cpp:87-90 | a deposit moves the caller's tokens, spends the allowance and raises the caller's record |
| WrapperRuns.WrapperStaysSolvent | src/contract/templates/erc20wrapper.cpp:67-90 | over all runs by outside callers the supply is the sum of the balances, the wrapper grants no allowance and its balance of a token covers all that is recorded for it |
| WrapperRuns.PaidOutExactly | src/contract/templates/erc20wrapper.cpp:67-85 | a payout succeeds exactly when less than the recorded balance is asked for |
| WrapperRuns.PaidInExactly | src/contract/templates/erc20wrapper.cpp:87-90 | a deposit succeeds exactly when allowance and balance suffice |
| State.State.AddBalance | src/core/state.cpp:406-410 | credits the fixed grant, or throws where the balance would overflow |
| Overlay.AlikeTotals | src/core/state.cpp:557-565 | tables that differ only in empty accounts have the same total |

## Left out

- AbiExact.RoundTripsExactly: leaves open the miscounted lists whose first dynamic component is a tuple that starts with a dynamic component and whose miscounted offset leads to an offset word; some of them bring every value back, as `AbiExact.LuckyRoundTrips` shows.
- StateRuns.CutPoolExactly: for blocks without native calls and with fewer than 2^64 transactions; a native call may rewrite any balance of the mempool's senders.
- StateRuns.ShortcutIsExact: two different transactions with one hash are not told apart by the shortcut, so the lemma excludes them.
- State.State.AddBalance: only the current balance; the constant added to the original balance, and an overflow of that sum, are not modelled.
- The database of Storage is a map of parsed blocks and transaction entries; a missing or out-of-range entry read for a transaction is undefined.
- RdPos.RdPos.ValidateBlock: the number of validators exceeds minValidators and twice that number fits 32 bits, which the C++ indexing demands without a check.
- Accounts.PreStateSuffices: conservation is stated for transactions without a native contract call; a native call that fails with a value re-credits the sender without a matching debit.
- The value a checked uint256_t holds after its own operation has thrown: taken as unchanged.
- Original balances and nonces (the first of each pair) and their access lists: only current values are modelled in the account table.
- Accounts that host calls insert and a revert does not remove: they hold defaults, so every read but account_exists answers as before.
- EVM execution: any sequence of host calls with a status and the gas left. Precompiles, nested calls and gas metering are not modelled.
- Native contract code: any sequence of sends and reads, or, from the state's side, a map of balances or an exception; commit and revert of the SafeVariables is modelled as "a call that throws changes nothing".
- The constructor of Storage that loads blocks from the database, and its destructor: the runs start from any state whose indexes agree with its chain.
- Transactions per block, frames and loop counters beyond their 32-bit or 64-bit widths, except where a lemma says so.
- ERC721 enumeration of owned tokens, token URIs, the list of pre-burned ids per owner and events: not kept in step by the code on transfers and burns.
- The encoders of event data and enums, EventParam types, and the binary layout of the DB: they would only add members of the same kind as the codecs here.
- JSON around the component tree (parseMethodInput and its relatives): wrappers around handleTupleComponents.
- P2P, HTTP, gRPC, options, logging, timers and thread pools: I/O. Locked operations are atomic steps; addTx takes two critical sections, modelled as one.
- Waiting loops of the producer and the worker that creates validator transactions: they only wait or send.
