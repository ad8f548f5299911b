# TitanCore, verified

TitanCore is a proof-of-authority account ledger: a chain of signed blocks made in turn by fixed
authorities, an account state that every block transforms, a pool of pending transactions, a key-value
store behind each node and length-prefixed JSON messages between nodes. This project is a Dafny model of
those parts, each with the branches, checks and constants of the C++ code, and proofs of what they
guarantee together. `dafny verify dfyconfig.toml` checks everything.

The classes `StateManager`, `Mempool`, `Blockchain`, `Storage`, `Node` and `PeerSession` have the fields
and methods of the C++ classes. Every method that changes state is proved equal to a specification
function of the old state, and the theorems are about those functions and about runs of them.

| module | contents |
|---|---|
| Common, Text, Numerals | bytes, 64-bit words, hexadecimal and decimal text, JSON values |
| Records | transactions and blocks: hashing, signing, verification |
| Ledger | accounts, transfers, block application, replay of a chain; conservation and replay protection |
| Ordering, Pools | the pool, its two indexes, selection and revalidation |
| Chains | the append-only chain and the rotation of producers |
| Stores | the key-value store, its keys and its log of writes |
| Nodes, NodeObjects | the handlers of a node as steps, crash recovery, synchronisation; the object that runs them |
| Nonces | how far nonces can get |
| Commitment | what a tip hash determines |
| Network | runs of many honest nodes: no forks, finality, every block applies |
| AnyPeers | runs in which peers send anything |
| StoredIndexes | when storage and memory agree |
| Gossip | what nodes send, and what it achieves at the nodes that get it |
| Quiescence | message handling ends |
| Codec, Wire | hex and JSON codecs, framing, the peer session |
| Formats | the byte-level formats, spelled out |

## Assumptions

Cryptography and JSON printing are arbitrary functions in a record (`Records.Suite`). Nothing is assumed
about them globally; lemmas that need something say so in their `requires`:

- `SignsFor`: what the private half of a key pair signs, its public half verifies (section 3.2 of RFC 6979
  makes signing a function of key and hash, which is how it is modelled).
- SHA-256 (FIPS 180-4) is never assumed to be injective. Results that depend on it conclude "or there is a
  collision", and name the collision: it is between two inputs that were hashed for the very chains the
  lemma talks about (`Commitment.ChainClash`), not somewhere among all inputs, where one always exists.
- `PrintsCompactly`: the JSON library prints the two hashed objects compactly, members in key order.
- `Network.NetOk`: the genesis allocations sum to at most 2^64 - 1, keys match, and no authority address is
  run by two nodes. `Ledger.ConservesIffCreditFits` shows when a transfer conserves the supply without the
  bound.
- No account uses up the nonce 2^64 - 1. For one step this reads `Nodes.NonceFits`: a transaction that the
  pool takes carries a smaller nonce; what the pool rejects may carry any. For runs it is derived and not
  assumed: a run among honest nodes has at most 2^64 - 1 events, and in a run with arbitrary peers fewer than
  2^64 - 1 transactions come in. `Pools.AddKeepsIndexesIff` shows that the bound is exact.
- What arrives at a node in a run is any message sent so far, in any order and any number of times, or
  anything else that contains no block which verifies under the scheduled authority and was never sent.

Where code and comments disagree, the code is followed. All four places that add a block discard the result
of `applyBlock` (`src/net/node.cpp:102,193,399,473`): a chained block whose transactions do not apply stays
in the chain and changes no balance. `Ledger.Replay` treats it so, for arbitrary peers;
`Network.EveryBlockApplies` shows that it does not happen among honest nodes.

## Model

| member | source | states |
|---|---|---|
| Network.NoForks | src/net/node.cpp:163-482 | in every run of up to 2^64 - 1 events of any number of nodes, with messages reordered, duplicated or lost, crashes after any storage write and restarts from storage, any two nodes' chains are prefix-comparable |
| Network.EveryBlockApplies | src/net/node.cpp:178-194 | in every such run, whatever clients submit, every block of every node's chain applies to the state before it: the discarded result of applyBlock is always true |
| Network.EqualHeightsEqualStates | src/net/node.cpp:163-482 | nodes at equal height have equal chains, balances and nonces |
| Network.Finality | src/net/node.cpp:72-482 | what a chain holds after a run it holds at the same index after every continuation, crashes included |
| Network.SentBlocksSurvive | src/net/node.cpp:186-206 | a block that was ever sent stands in its maker's chain from then on: blocks lost in a crash were never sent |
| Network.StepKeepsInv | src/net/node.cpp:303-495 | every event (delivery, production, submission, connection, restart, death inside a handler) keeps the system invariant |
| Network.SentIsDeliverable | src/net/node.cpp:204-206 | every message ever sent is among those that may arrive, at any node, any later time and any number of times |
| Network.AcceptedWithin | src/net/node.cpp:393-400 | a published block that a node accepts already stands in the chain of its scheduled producer, which extends the node's own |
| Network.OwnerIsAhead | src/net/node.cpp:170-176 | a node whose turn it is has the longest chain of all |
| Network.EventKeepsNode | src/net/node.cpp:303-495 | whatever message arrives and wherever the process dies, the event keeps the node consistent and removes no block that was in its chain when the event began |
| Network.EventLow | src/net/node.cpp:334-482 | an event raises the highest nonce of the whole network by at most one, since arriving blocks only repeat blocks of some node's chain |
| Network.RunKeepsInv | src/net/node.cpp:303-495 | after every sequence of events from fresh nodes the invariant holds and no account's nonce exceeds the number of events |
| Nonces.AcceptedIsLow | src/core/mempool.cpp:91-119 | if no account has had more than k transactions and no pooled nonce reaches k, the pool takes no transaction with a nonce above k |
| Nonces.HandleLow | src/net/node.cpp:303-332 | handling any message raises that bound by at most the transactions it carries |
| AnyPeers.ReachableStatesAreReplays | src/net/node.cpp:72-482 | in every reachable state of every node, even with arbitrary peer messages and blocks, accounts equal the fold of applyBlock over the chain with failing blocks as no-ops, the chain validates, the pool is well formed, and a restart rebuilds exactly this chain and state |
| AnyPeers.AnyRunGrows | src/net/node.cpp:72-482 | in such runs, too, no continuation takes back a block of a node's chain |
| AnyPeers.NoDebitWithoutSignature | src/core/transaction.cpp:212-237 | in every reachable state, even with arbitrary peers, a block that lowers an address's balance or moves its nonce holds a transaction of that address, whose public key derives to it, whose hash is the digest of its signed text and whose signature verifies under that key |
| AnyPeers.PooledAreSigned | src/core/mempool.cpp:54-62 | the same of every pooled transaction, which is filed under its own hash |
| AnyPeers.BlocksAreSigned | src/core/block.cpp:198-237 | every block after genesis in every reachable chain is by the authority whose turn its index is, hashed over its header, signed under that authority's key, and holds only signed transactions |
| Nodes.HandleKeepsOk | src/net/node.cpp:303-332 | replay invariant of one step: after any message, arbitrary blocks included, accounts are the replay of the chain, the chain validates, pool and storage agree with it, and the chain has only grown |
| Nodes.AcceptKeepsOk | src/net/node.cpp:393-400 | add, apply, clean up and persist keep the node consistent whether or not the block's transactions apply |
| Nodes.SubmitKeepsOk | src/net/node.cpp:134-157 | submission keeps the node consistent |
| Nodes.DraftIsTaken | src/net/node.cpp:170-194 | on its turn the node's own block passes all four checks of addBlock and applies to confirmed state |
| Nodes.ProduceSucceeds | src/net/node.cpp:163-208 | on its turn produceBlock succeeds, appends exactly that block, and leaves in the pool exactly the transactions it did not select |
| Nodes.LoneAuthorityDrains | src/net/node.cpp:178-194 | a lone authority that produces k times appends k blocks and leaves max(0, m - 100 k) of m pooled transactions |
| Nodes.SyncRoundCatchesUp | src/net/node.cpp:417-482 | handling the reply to a block request leaves the requester at or above the responder's height at reply time, with the responder's blocks and replayed state, even if it advanced meanwhile |
| Nodes.OnBlocksFollows | src/net/node.cpp:447-482 | handling any tail of a comparable valid chain ends with the longer of the two chains |
| Nodes.ConnectRoundCatchesUp | src/net/node.cpp:484-495 | the request sent on connection, answered and handled at any later times, leaves the node with the peer's chain at its answer as a prefix of its own |
| Gossip.ProductionReachesPeers | src/net/node.cpp:163-208 | on its turn a node appends one block with the next index, its first 100 pooled transactions and the current time, and sends a message that makes every consistent peer with its old chain take that block and reach the same accounts |
| Gossip.BlocksArePassedOn | src/net/node.cpp:408-414 | whenever a NEW_BLOCK makes the chain grow, the node sends the others a message that makes every peer with the old chain take the block too |
| Gossip.NextBlockIsTaken | src/net/node.cpp:392-401 | a block that extends the chain to a valid one is taken, whoever sends it |
| Gossip.SubmissionsAreSent | src/net/node.cpp:149-156 | a submitted transaction that enters the pool is sent, and every peer in the same state files it |
| Gossip.TransactionsArePassedOn | src/net/node.cpp:356-362 | so is a peer's transaction that enters the pool |
| Gossip.RequestsAreAnswered | src/net/node.cpp:417-445 | a request for blocks gets exactly one answer, the blocks from that index to the tip in order, and changes nothing |
| Gossip.PingIsAnswered | src/net/node.cpp:305-314 | a ping is answered by a pong; neither changes anything |
| Gossip.AheadRoundCatchesUp | src/net/node.cpp:373-383 | on a block ahead of its height a node sends a request such that the answer of any peer with a comparable chain brings it up to that peer |
| Gossip.ConnectingCatchesUp | src/net/node.cpp:484-495 | on a new session a node sends a request whose answer, given and handled at any later times, brings it up to the peer |
| Gossip.BlocksStopAtTrouble | src/net/node.cpp:461-471 | a BLOCKS message is handled up to the first block that leaves a gap or is rejected, and no further |
| Nodes.HandleDb | src/net/node.cpp:214-244 | for every message the handler's write list leads exactly from the old database to the new one |
| Nodes.ProduceDb | src/net/node.cpp:214-244 | and so for production |
| Nodes.CrashRecovery | src/net/node.cpp:214-244 | death after any number of the writes for one block: the restarted node has the new chain, or the old one if fewer than two writes were made, with that chain's replayed state |
| Nodes.CrashDuringBlocks | src/net/node.cpp:447-482 | death inside a BLOCKS message: storage holds a valid chain at most one block short of memory at that write |
| Nodes.CrashDuringHandle | src/net/node.cpp:303-332 | death inside the handling of any message: the restarted node is consistent and its chain lies between the one before and the one the message leads to |
| Nodes.BootRestores | src/net/node.cpp:72-108 | recovery from storage that holds a valid chain rebuilds exactly that chain and its replayed state |
| NodeObjects.Node.constructor | src/net/node.cpp:15-62 | a new process equals the specification of booting from its disk |
| NodeObjects.Node.RecoverFromStorage | src/net/node.cpp:72-108 | the recovery loop rebuilds the chain and the accounts that the specification names |
| NodeObjects.Node.AfterBlockAccepted | src/net/node.cpp:214-244 | the pool becomes the revalidation of the pool without the block's transactions; the storage log grows by exactly the block's writes in order: block and hash, height, then accounts |
| NodeObjects.Node.Persist | src/net/node.cpp:222-243 | the storage log grows by exactly these writes in this order |
| NodeObjects.Node.ProduceBlock | src/net/node.cpp:163-208 | refines the production step, its write list included; returns true exactly on the node's own turn, and forwards exactly the new block |
| NodeObjects.Node.SubmitTransaction | src/net/node.cpp:134-157 | refines the submission step; true exactly if the pool accepts |
| NodeObjects.Node.OnNewTx | src/net/node.cpp:334-363 | refines the step for a transaction from a peer, known ones ignored |
| NodeObjects.Node.OnNewBlock | src/net/node.cpp:365-415 | refines the step for a block from a peer: ahead asks for blocks, behind is ignored, next is tried and forwarded |
| NodeObjects.Node.OnGetBlocks | src/net/node.cpp:417-445 | answers with exactly the blocks from the requested index to the tip, or none |
| NodeObjects.Node.OnBlocks | src/net/node.cpp:447-482 | refines the block-by-block step: known skipped, stop at a gap or a rejected block |
| NodeObjects.Node.HandleMessage | src/net/node.cpp:303-332 | refines the dispatch: new state, writes in order, replies and forwards, for every message; keeps the node consistent |
| Pools.Mempool.AddTransaction | src/core/mempool.cpp:51-147 | accepts exactly if all five checks pass; then exactly one entry, one nonce and one balance change |
| Pools.Mempool.GetTransactionsForBlock | src/core/mempool.cpp:153-184 | from whatever enumeration order of the hash map: min(k, pool size) pooled transactions without repeats, ordered by sender address bytes and then nonce, and everything left out comes after everything taken |
| Common.LexLessMeans | src/core/mempool.cpp:171-174 | addresses compare by the first byte in which they differ |
| Pools.Mempool.RemoveMinedTransactions | src/core/mempool.cpp:190-204 | removes exactly the entries filed under the block's transaction hashes and leaves both indexes alone |
| Pools.Mempool.Revalidate | src/core/mempool.cpp:206-262 | refines clear-and-re-add; returns the number dropped |
| Pools.AddKeepsPoolOk | src/core/mempool.cpp:51-147 | adding a transaction, taken or rejected, keeps the pool well formed |
| Pools.AddKeepsIndexesIff | src/core/mempool.cpp:135-141 | a transaction that is taken leaves the indexes in agreement with the pool if and only if its nonce is below 2^64 - 1 |
| Pools.RevalidateExact | src/core/mempool.cpp:206-262 | for any new state and any part of a well-formed pool, revalidation keeps precisely the transactions in their sender's longest run of consecutive nonces from the confirmed one whose running total fits the confirmed balance |
| Pools.RevalidateOk | src/core/mempool.cpp:206-262 | revalidation establishes a well-formed pool for any new state |
| Pools.RevalidateFixpoint | src/core/mempool.cpp:206-262 | on a well-formed pool revalidation changes nothing, so a second call drops none |
| Pools.RevalidateShrinks | src/core/mempool.cpp:253-261 | revalidation never grows the pool, so the returned count does not underflow |
| Pools.IndexAgreement | src/core/mempool.cpp:280-294 | a sender's pooled nonces are exactly those from confirmed to pending, pooled amounts plus pending balance are the confirmed balance, and index entries exist exactly for senders with pooled transactions |
| Pools.SelectionApplies | src/core/mempool.cpp:153-184 | for every bound the selected transactions verify and apply to confirmed state |
| Pools.RunnableApplies | src/core/mempool.cpp:161-176 | any interleaving of per-sender runs that follow on from confirmed state and are paid for applies |
| Pools.OwnBlockEvictsNothing | src/core/mempool.cpp:190-262 | after one's own block the pool is exactly the unselected suffix; pending nonces of senders with leftovers are unchanged and their pending balances grow by exactly what the block credits them |
| Pools.WrappedNonceBreaksSelection | src/core/mempool.cpp:135-139 | past that bound selection fails too: after nonce 2^64 - 1 the pool takes nonce 0, which sorts first, and the selected block does not apply |
| Ordering.SortByKey | src/core/mempool.cpp:169-176 | sorting a repetition-free list with distinct keys gives the one listing of its set in key order |
| Ordering.ListingUnique | src/core/mempool.cpp:158-176 | a set has only one listing in key order, so enumeration order cannot matter |
| Ledger.StateManager.constructor | src/core/state.cpp:49-59 | from any enumeration order, exactly the allocated addresses have accounts, each with its allocation as balance and nonce 0 |
| Ledger.GenesisSupply | src/core/state.cpp:49-59 | the genesis supply is the sum of the allocations |
| Ledger.ChainBalances | src/core/state.cpp:49-189 | after any chain a balance is the genesis allocation plus all received minus all sent in the blocks that took effect, and the supply is the sum of the allocations |
| Ledger.CreatedTransactionPays | src/core/transaction.cpp:166-206 | a created transaction validates exactly if the keys' own account can pay the amount and is at the given nonce, and then moves that amount from it to the given recipient |
| Ledger.StateManager.ApplyBlock | src/core/state.cpp:114-189 | true exactly if all transactions apply in order on the evolving copy; then the state is the result, otherwise it is unchanged |
| Ledger.AppliesIffEachValidates | src/core/state.cpp:65-177 | applyBlock succeeds exactly when validateTransaction would succeed for each transaction on the state evolved so far |
| Ledger.TransferFlows | src/core/state.cpp:168-176 | one transfer within the supply bound wraps nowhere, moves balances by exactly the amount, self-transfers and new accounts included, and touches only the sender's nonce |
| Ledger.BlockFlows | src/core/state.cpp:122-183 | a block keeps the supply and changes each balance by exactly received minus sent |
| Ledger.ReplaySupply | src/core/state.cpp:114-189 | over any chain of any blocks the supply never changes |
| Ledger.ConservesIffCreditFits | src/core/state.cpp:168-176 | without the bound: a transfer conserves supply if and only if it is to oneself or the credit fits in 64 bits |
| Ledger.BlockNonces | src/core/state.cpp:169-169 | each nonce advances by the number of transactions sent |
| Ledger.ReplayIsApplied | src/core/state.cpp:114-189 | replaying a chain is applying, one after the other, the transactions of the blocks that took effect |
| Ledger.ReplayProtection | src/core/state.cpp:100-105 | over any chain, a sender's effective transactions carry nonces 0, 1, 2, ... in order, none twice, and the account nonce is their number |
| Chains.Blockchain.constructor | src/core/blockchain.cpp:56-64 | the chain is the genesis block of the given keys: index 0, time 0, zero predecessor, no transactions |
| Chains.Blockchain.AddBlock | src/core/blockchain.cpp:70-137 | accepts exactly if index, link, verification and schedule fit; appends then, otherwise changes nothing |
| Chains.Blockchain.ValidateChain | src/core/blockchain.cpp:147-200 | true exactly for a non-empty chain in which every block has its index, its link and verifies |
| Chains.Blockchain.FindBlockByHash | src/core/blockchain.cpp:230-242 | the scan returns what FirstWithHash specifies |
| Chains.FirstWithHashMeans | src/core/blockchain.cpp:230-242 | that is the first block with the hash, and none exactly if there is none |
| Chains.Blockchain.FindTransaction | src/core/blockchain.cpp:244-260 | the first transaction with the hash in chain order, and none exactly if there is none |
| Chains.AnyCallsKeepChainValid | src/core/blockchain.cpp:70-137 | after any sequence of addBlock calls, accepted or rejected, validateChain is true, every later block is by its scheduled authority and the old chain is a prefix |
| Chains.CreatedBlockExtends | src/core/block.cpp:157-192 | a block made on the tip by the scheduled authority from verifying transactions passes all four checks |
| Chains.ShareOf | src/core/consensus.cpp:54-61 | how many of blocks 1..L the k-th of n distinct authorities produced: L div n, plus one if the current round has passed it |
| Chains.RotationIsFair | src/core/consensus.cpp:54-89 | any two authorities' block counts differ by at most one |
| Records.ComputeTransactionRootHash | src/core/block.cpp:46-66 | the loop hashes all transaction hashes in order |
| Records.CreatedBlocksVerify | src/core/block.cpp:121-237 | genesis verifies; a created block verifies if and only if all its transactions do, under another signature exactly if that verifies too, and under another validator or hash never |
| Records.CreatedTransactionsVerify | src/core/transaction.cpp:147-237 | a created transaction verifies, under another signature exactly if that verifies too, and under another sender or hash never |
| Records.VerifyEachMeans | src/core/block.cpp:230-234 | the loop over a block's transactions succeeds exactly if each verifies |
| Commitment.ChainCommitment | src/core/block.cpp:46-103 | two chains that pass validateChain with equal tip hashes agree in length and in every field of every block and transaction except signatures, and replay to the same state, or two distinct inputs hashed for these chains collide |
| Commitment.BlockCommitment | src/core/block.cpp:198-237 | two verifying blocks with one hash agree except in signatures, or their own hashed inputs collide |
| Commitment.TransactionCommitment | src/core/transaction.cpp:44-66 | two verifying transactions with one hash agree except in the signature unless their signed texts collide |
| Commitment.FieldsInjective | src/core/transaction.cpp:44-66 | printed objects with the same keys and string lengths are told apart by their text |
| Stores.Storage.SaveBlock | src/storage/storage.cpp:115-144 | one atomic write, logged, after which the block is found under its index and under its hash |
| Stores.BlockReadsBack | src/storage/storage.cpp:115-186 | a saved block is found under its index, its hash and any hash whose entry points at that index; every other block, hash, account and the height read as before |
| Stores.Storage.LoadBlock | src/storage/storage.cpp:146-165 | the block under that index, or none |
| Stores.Storage.LoadBlockByHash | src/storage/storage.cpp:167-186 | the block the hash entry points at, or none |
| Stores.Storage.SaveAccountState | src/storage/storage.cpp:192-207 | the account is read back; every other account, every block, every hash lookup and the height read as before; one write is logged |
| Stores.AccountReadsBack | src/storage/storage.cpp:192-231 | saving and then loading an account gives it back, and changes no other lookup |
| Stores.Storage.SaveChainHeight | src/storage/storage.cpp:277-286 | the height is read back; one write is logged |
| Stores.HeightReadsBack | src/storage/storage.cpp:277-304 | saving and then loading the height gives it back, and changes no other lookup |
| Stores.Storage.LoadChainHeight | src/storage/storage.cpp:288-304 | the stored height, or 0 |
| Stores.KeysApart | src/storage/storage.cpp:51-55 | blocks, hashes, accounts and the height never share a key, nor do two of a kind |
| Stores.PadIndexInjective | src/storage/storage.cpp:98-109 | padIndex is injective on all indices |
| Stores.PadIndexOrdered | src/storage/storage.cpp:98-109 | below 10^8 byte order of padded indices is numeric order |
| Stores.PadIndexOrderedIff | src/storage/storage.cpp:98-109 | byte order of padded indices is numeric order below a limit if and only if the limit is at most 10^8 |
| StoredIndexes.RunKeepsIndexes | src/net/node.cpp:214-244 | in every run without an unclean death at a persistent node, however often it restarts or dies cleanly, hash entries are exactly those of its non-genesis blocks, stored accounts equal live ones, and unstored addresses still have their genesis value |
| StoredIndexes.RunIndexesStep | src/net/node.cpp:214-244 | an event ends that agreement if and only if it is an unclean death of that node |
| StoredIndexes.CrashInHandleIff | src/net/node.cpp:222-243 | after a death at any write of any message's handling and a restart, indexes and memory agree if and only if, for the block then being accepted, no write was made, or its height and every account it changes were written |
| StoredIndexes.HashesAgreeIff | src/net/node.cpp:222-225 | after a death at write j of a block and a restart, hash entries agree with the chain if and only if j is not 1 |
| StoredIndexes.AccountAgreesIff | src/net/node.cpp:227-242 | with the height written, a stored account agrees if and only if its write was made or the block leaves it as it was; before that it always agrees |
| StoredIndexes.HandleKeepsIndexes | src/net/node.cpp:303-332 | handling any message keeps that agreement, whatever blocks arrive |
| StoredIndexes.LookupMatchesScan | src/storage/storage.cpp:167-186 | while hash entries agree, lookup by hash in storage equals the linear scan of memory for every non-genesis hash, or two headers of this chain collide |
| StoredIndexes.LostBlockIsFound | src/net/node.cpp:222-225 | after a death between a block's own write and the height, the lost block is still found by its hash though it is not in the chain |
| StoredIndexes.StaleHashIff | src/net/node.cpp:222-225 | the next accepted block mends this if and only if it has the lost block's hash; otherwise that hash finds the other block |
| StoredIndexes.StaleHashIsReachable | src/net/node.cpp:163-208 | any clean run that leaves a persistent node on its turn extends to one that ends so: death at the first write of its block, then another block |
| StoredIndexes.StaleHashHappens | src/net/node.cpp:163-208 | a concrete network of one node and two events after which hash entries disagree with the chain |
| Quiescence.DeliveriesEnd | src/net/node.cpp:303-482 | from any state there is no infinite sequence of deliveries |
| Quiescence.DeliveryDecreases | src/net/node.cpp:303-482 | each delivery decreases (missing height, absent node/transaction pairs, weighted messages in flight) lexicographically and keeps its bounds |
| Quiescence.HandleProgress | src/net/node.cpp:303-482 | each handler raises its chain, or pools a new transaction, or changes nothing and answers with at most one lighter message |
| Codec.ToHex | src/crypto/hash.cpp:109-120 | the loop writes two digits per byte, high nibble first |
| Codec.FromHex | src/crypto/hash.cpp:122-151 | the loop parses pair by pair and returns nothing on odd length or a pair that stoul refuses |
| Codec.HexRoundTrip | src/crypto/hash.cpp:109-151 | fromHex undoes toHex |
| Formats.HexMeans | src/crypto/hash.cpp:109-120 | each byte is two ASCII digits or lower-case letters, the more significant first |
| Formats.UpperCaseRoundTrip | src/crypto/hash.cpp:122-151 | fromHex undoes toHex with its letters in upper case, too |
| Formats.AddressIsDigestTail | src/crypto/keys.cpp:138-160 | an address is the last 20 bytes of the digest of the public key |
| Formats.JoinMeans | src/core/block.cpp:46-66 | bytes 32i to 32i + 31 under the transaction root are the hash of transaction i |
| Formats.SignedTextIs | src/core/transaction.cpp:44-66 | the exact JSON members hashed for a transaction, in order |
| Formats.HeaderTextIs | src/core/block.cpp:72-92 | the exact JSON members hashed for a block, in order |
| Formats.KeysAre | src/storage/storage.cpp:51-55 | the exact keys of blocks, hashes, accounts and the height |
| Formats.PrefixIsLittleEndian | src/net/message.cpp:29-41 | the length prefix weighs its bytes by powers of 256, the first one least |
| Formats.BodyLimit | src/net/peer_session.cpp:67-73 | bodies up to 16777216 bytes get through, and no larger ones |
| Formats.TypeNames | src/net/message.cpp:7-27 | the exact type names of the six messages |
| Codec.TextRoundTrip | src/crypto/hash.cpp:109-151 | toHex undoes fromHex if and only if the text has even length and only lower-case digits |
| Codec.LenientPairs | src/crypto/hash.cpp:132-148 | what the decoder makes of every pair with a character that is no digit: cut off at it, a leading space or sign skipped, refused otherwise |
| Codec.LenientExamples | src/crypto/hash.cpp:132-148 | "1g" reads as 0x01, "-1" as 0xff and "AB" as 0xab, while "g1" is refused |
| Codec.TransactionDecodesIff | src/core/transaction.cpp:79-119 | a value decodes to a transaction if and only if every key is there with the right type and size, and then to exactly those fields |
| Codec.BlockDecodesIff | src/core/block.cpp:270-307 | likewise for blocks, which decode only with all their transactions, in order |
| Codec.FixedRoundTrip | include/titancore/crypto/hash.hpp:95-127 | fromHexFixed of toHex gives the value back if it has the requested size, and fails otherwise |
| Codec.TransactionRoundTrip | src/core/transaction.cpp:68-119 | decoding an encoded transaction gives it back |
| Codec.BlockRoundTrip | src/core/block.cpp:247-307 | decoding an encoded block gives it back, transactions in order |
| Codec.MessageRoundTrip | src/net/message.cpp:7-65 | the receiver handles exactly the message that was sent |
| Codec.MalformedCutsOff | src/net/node.cpp:453-454 | a BLOCKS body with a malformed block acts like the same body cut off before it |
| Wire.EncodeLength | src/net/message.cpp:29-34 | the four bytes are the length, least significant first; the rest of the buffer is untouched |
| Wire.DecodeLength | src/net/message.cpp:36-41 | reads the length from the first four bytes |
| Wire.LengthRoundTrip | src/net/message.cpp:29-41 | encoding and decoding are inverse bijections between 32-bit lengths and four bytes |
| Wire.SerializeMessage | src/net/message.cpp:51-56 | the buffer is the length prefix followed by the body |
| Wire.FramesArriveInOrder | src/net/peer_session.cpp:53-112 | whatever part of the byte stream has arrived, the bodies read are the first ones sent, unchanged and in order; when all has arrived, all before the first one over 16 MiB |
| Wire.PeerSession.constructor | src/net/peer_session.cpp:7-12 | a new session is open, idle and reading a header |
| Wire.PeerSession.Send | src/net/peer_session.cpp:19-31 | queues the frame unless closed; keeps at most one write outstanding, and exactly one while open with a non-empty queue |
| Wire.PeerSession.DoWrite | src/net/peer_session.cpp:118-137 | starts a write exactly if open and the queue is not empty |
| Wire.PeerSession.OnWritten | src/net/peer_session.cpp:125-136 | success pops one frame and starts the next write, failure closes; the session invariant is kept |
| Wire.PeerSession.OnHeader | src/net/peer_session.cpp:53-77 | a length over 16 MiB or a read error closes the session, otherwise a body of that length is read next |
| Wire.PeerSession.OnBody | src/net/peer_session.cpp:79-112 | hands on exactly the body read and reads the next header |
| Wire.PeerSession.Disconnect | src/net/peer_session.cpp:143-156 | closes, and the disconnect callback runs exactly once |
| Wire.ChannelSafety | src/net/peer_session.cpp:19-137 | whatever is queued, in flight or lost, what one end received is a prefix, in order, of what the other end sent |
| Wire.ChannelDrained | src/net/peer_session.cpp:19-137 | and all of it when the queue is empty and everything is read |
| Wire.MessagesInOrder | src/net/peer_session.cpp:92-110 | the receiving node handles a prefix of the messages given to send, none altered or dropped in between |

## Left out

- Records: block and transaction signing and creation are modelled on values, returning the signed record, not as in-place updates of a struct passed by reference.
- Codec.TransactionRoundTrip: the decoders, which fill a struct field by field, are functions in the same order of checks; JSON text parsing itself is not modelled, JSON values are records with keys in order, without null, booleans, floating point or negative numbers.
- Nodes: a block index is a natural number, not a 64-bit one; a chain of 2^64 blocks cannot exist.
- Nodes.HandleKeepsOk: malformed messages other than a cut-off BLOCKS body are only covered as messages that are not handled; a transaction that the pool takes at nonce 2^64 - 1 is excluded, since the invariant then fails (Pools.AddKeepsIndexesIff).
- Nodes.SyncRoundCatchesUp: the reply has to arrive, so its body must be within 16 MiB; longer tails make the requester disconnect, and the code does not split them.
- Nodes.LoneAuthorityDrains: liveness with several authorities is not claimed: when the scheduled authority is down no other can produce, and the code has no mechanism for that.
- Wire.SerializeMessage: bodies of 2^32 bytes or more are excluded; the code truncates their length prefix and then copies past the end of the buffer, which C++ leaves undefined.
- Wire.ChannelSafety: the byte stream in between is assumed to be in order (TCP); timing, sockets, threads and the peer list of the network manager are not modelled, in Network they are a bag of messages.
- Stores: LevelDB is a map with atomic writes in program order; loadAllAccounts, clear and I/O errors that throw are not modelled. Genesis is never stored by the code.
- Elliptic-curve keys and the inside of SHA-256 are not part of this model; they are the functions of Records.Suite.
- Error strings, lastError_ and logging.
- The RPC server, the command line, key files and the genesis configuration; they only supply initial values and call Node.
