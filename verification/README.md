# RustChain, modelled and proved in Dafny

This project models the deterministic core of the RustChain node and of its bridge contract, and
proves properties of whole runs of it. `dafny verify dfyconfig.toml` checks everything.

What is modelled, component by component:

- **Chain state** (`Ledger`, `Blocks`, `CodeStore`, `ChainStore`): one transaction over a plain account map; blocks
  and epochs as folds of it; and the stateful `ChainState` that runs a block through an overlay of
  modified accounts and commits once. On top: who is touched and how (`Effects`), conservation over whole runs (`Conservation`, `Solvency`, `Books`, `CallBooks`),
  replay safety (`Replay`) and epoch structure (`Epochs`).
- **Merkle tree** (`Merkle`, `Framing`, `MerkleOverBytes`): builder, prover and verifier over unpadded
  layers, and length-prefixed hashing. The hash function is a parameter about which nothing is
  assumed: binding is stated as "equal, or here are two different inputs with one digest".
- **Finality, proposer, pool, production** (`Quorum`, `Finality`, `Proposer`, `Pool`, `Production`).
- **Bridge contract** (`Contract`, `ContractArgs`, `ContractHost`, `ContractKeys`, `ContractSwaps`,
  `ContractTokens`, `ContractCalls`, `ContractAdmin`, `ContractCounts`, `Sha256Spec`, `Sha256`): entry points over raw byte keys and
  records, and the contract's own SHA-256 against FIPS 180-4.
- **Swap manager** (`Swaps`) and **VM journal** (`Journal`).

Conventions. The workspace's release profile leaves overflow checks off, so machine arithmetic wraps
and the model says so (`Add128`, `Sub128`, `Mul64`, `Add64`, `WrapI128`). Signatures, header hashes,
the clock, the seeded random draw and the virtual machine's answers are inputs. Iteration over hash
maps is an arbitrary order. Public methods are atomic steps.

Where the code and its own description differ, the model follows the code:

- A transfer to oneself loses its value, because the credited copy of the account is overwritten by
  the sender's copy (crates/consensus/src/state.rs:313 and 613); a gas refund is multiplied in 64 bits
  although the charge was multiplied in 128 (crates/consensus/src/state.rs:316,
  crates/core/src/transaction.rs:121). `SelfTransferLoses` and `RefundLoses` are examples;
  `NothingLostIff` and `RunConservesIff` give the exact condition.
- A total cost past 128 bits wraps around before the balance check (crates/core/src/transaction.rs:126).
  `StepBooks` and `RunBooks` balance the books with carries and borrows counted, for all inputs, but these
  can cancel. `WrappedIff` and `RunWrapsIff` say exactly when something wraps, `TransferMoves`, `StakeMoves`
  and `UnstakeMoves` exactly when the right party pays, `StepConservesIff` and `RunBalancesIff` exactly when
  the books balance. `OutOfRangeMints`, `ReceiverPays` and `OutOfRangeEndsRight` are examples.
- "A block is finalized when 2/3+ of active stake votes for it" (crates/consensus/src/finality.rs:63):
  votes are added up as they come in, so repeated votes and votes for different blocks count together
  (`RepeatedVotesFinalize`, `SplitVotesFinalize`). `TallyIsStakeIff` says exactly when the tally is
  the stake of distinct voters; `RunFinalizesByTwoThirds`, `FinalizedWithSplitVotes` and
  `FinalizedBlockHasTwoThirds` state what finalization then means, and `NodesAgree` what it is for. A vote
  counts for the validator it names: whose key it carries is not compared (crates/consensus/src/finality.rs:43-52,
  `SignerIsNotCompared`), so `NodesAgree` is about the validators that admitted votes name.
- A change of the validator set does not check stored votes again, so a height can sit at its quorum
  unfinalized until its next vote (`SetChangeReachesQuorum`); `RunOpen` says which heights cannot.
- Selection is said to respect nonce ordering (crates/consensus/src/tx_pool.rs:117). It does so
  exactly for pools in which no transaction outbids an earlier nonce of its sender
  (`SelectionInOrderIff`).
- The pool's gas limit holds when sums stay below 2^64, and `NeverOverrunsIff` shows that is needed.
- The contract's count of validators is right exactly while no call miscounts (`CallCountsIff`), and
  its count of swaps while `init` is not repeated over it (`CallCountsSwapsIff`).
- Minting is said to be for owner and validators (contracts/bridge/src/lib.rs:427). The owner is the caller of
  the last `init`, which anyone may call again (`OwnerIsLastInit`, `SecondInitReplacesOwner`).
- With an epoch length of one block the first epoch is never left (`OneBlockEpochsStall`, `TilesIff`).

Operations whose contract only names their function or their assignment (the bridge's `Init`, `BridgeLock`,
`AddValidator`, `RemoveValidator` and `SetPaused`, the journal's writes, the engine's set update) have
no row of their own; the rows name what is proved about them.

## Model

| member | source | states |
|---|---|---|
| ChainStore.ChainState.FromGenesis | crates/consensus/src/state.rs:102-142 | A first start stores the listed accounts (a later entry replaces an earlier one), the listed validators, height 0 and an epoch ending at length - 1 in 64 bits |
| ChainStore.ChainState.Fetch | crates/consensus/src/state.rs:251-255 | Overlay, then storage, then a fresh account: the lookup in the merged map, under the account's own address |
| ChainStore.ChainState.ApplyBalanceChanges | crates/consensus/src/state.rs:162-178 | In whatever order the deltas come, the overlay over storage ends as the merged map with every delta applied and clamped at zero |
| ChainStore.ChainState.Transfer | crates/consensus/src/state.rs:303-331 | The overlay run of a transfer is the transfer on the merged map |
| ChainStore.ChainState.FlushSlots | crates/consensus/src/state.rs:359-364 | Entry by entry in any order, under composite byte keys, the database ends with every changed slot at its value or deleted and every other row as it was |
| ChainStore.ChainState.Deploy | crates/consensus/src/state.rs:332-401 | The overlay run of a deployment, successful or not, is the deployment on the merged map; exactly a successful one stores its code and slot changes |
| ChainStore.ChainState.Call | crates/consensus/src/state.rs:402-500 | The overlay run of a contract call, with its five outcomes, is the call on the merged map; exactly a successful run stores its slot changes |
| ChainStore.ChainState.AddStake | crates/consensus/src/state.rs:505-518 | The first validator of the sender gains the stake and is active, or a new one is appended; the cached total is recomputed |
| ChainStore.ChainState.RemoveStake | crates/consensus/src/state.rs:542-569 | Not a validator, too little stake, or stake removed with deactivation below the minimum |
| ChainStore.ChainState.Stake | crates/consensus/src/state.rs:501-536 | The overlay run of a stake transaction is the one on the merged map and the validator set |
| ChainStore.ChainState.Unstake | crates/consensus/src/state.rs:537-609 | The overlay run of an unstake transaction is the one on the merged map and the validator set |
| ChainStore.ChainState.ExecuteTx | crates/consensus/src/state.rs:246-615 | One iteration, rejections included, is one step on the merged map and on the contract store, receipt included |
| ChainStore.ChainState.ExecuteAll | crates/consensus/src/state.rs:240-615 | After the loop, overlay over storage is the fold of the one-transaction step, and so are the receipts and the contract store |
| ChainStore.Commit | crates/consensus/src/state.rs:620-628 | Writing the modified accounts under their own addresses is merging the overlay into storage |
| ChainStore.ChainState.ApplyBlock | crates/consensus/src/state.rs:217-642 | Succeeds exactly for the child of the head; then accounts, validators, receipts and the contract store are folds of the step over the plain map; otherwise nothing changes and the error says why |
| ChainStore.ChainState.MaybeAdvanceEpoch | crates/consensus/src/state.rs:646-707 | Exactly at the epoch's last block the set is unjailed, filtered, sorted and truncated and the next epoch starts; accounts are untouched |
| Effects.GenesisBalance | crates/consensus/src/state.rs:107-111 | An address listed in genesis starts with the balance of its last entry, nonce zero and no code |
| Effects.GenesisAbsent | crates/consensus/src/state.rs:107-111 | An address that is not listed does not exist |
| Effects.GenesisIs | crates/consensus/src/state.rs:113-142 | Height 0, the listed validators in order and active, and the configured limits |
| Effects.BlocksLink | crates/consensus/src/state.rs:222-238 | After a block exactly its children extend the chain, also after the epoch check, which moves no balance |
| Effects.AcceptedIff | crates/consensus/src/state.rs:257-296 | A transaction passes both checks if and only if it has the sender's nonce and value + limit * price, cut to 128 bits, is within the balance |
| Effects.RejectedIs | crates/consensus/src/state.rs:257-296 | A rejected transaction changes nothing, uses no gas and tells which check failed |
| Effects.ReceiptIs | crates/consensus/src/state.rs:303-401 | Status, gas and contract of the receipts of transfers, staking and deployments |
| Effects.CallReceiptIs | crates/consensus/src/state.rs:402-500 | Status and gas in each of the five outcomes of a call |
| Effects.OthersStay | crates/consensus/src/state.rs:246-615 | Nobody but the sender, a transfer's receiver, a new contract and those with a delta is touched, and only staking touches the validators |
| Effects.IdentityKept | crates/consensus/src/state.rs:246-615 | Every account but a new contract keeps its address and code |
| Effects.NobodyIsZero | crates/consensus/src/state.rs:304-313 | A transfer that names nobody pays the zero address |
| Effects.CodeStored | crates/consensus/src/state.rs:350-351 | Exactly a successful deployment stores its data, under its code hash |
| Effects.SlotsRead | crates/consensus/src/state.rs:358-364 | After a transaction every slot reads as the changes of its successful run over the old rows |
| Effects.StakeRecords | crates/consensus/src/state.rs:505-518 | Staking changes the sender's first record or appends one, and no other |
| Effects.UnstakeRecords | crates/consensus/src/state.rs:542-569 | Unstaking changes one record, which stays active if and only if it was and keeps the minimum |
| CodeStore.RunKeepsCode | crates/consensus/src/state.rs:350-356 | Over every run of blocks, if every account with a code hash has that code stored, it stays so |
| ChainStore.CodeHeldFromGenesis | crates/consensus/src/state.rs:350-356 | Hence from every genesis every contract account's code is stored after every block |
| ChainStore.CallFindsCode | crates/consensus/src/state.rs:402-425 | Inside every block too, before each transaction: a call that reaches a contract finds its code stored |
| Ledger.IndexOf | crates/core/src/validator.rs:65-72 | The position found is the first with the address, and the length when there is none |
| Conservation.RefundIs | crates/core/src/transaction.rs:119-127 | The refund is the unused gas cost cut to 64 bits, and charge plus unused cost is the whole up-front charge |
| Conservation.SenderBalance | crates/consensus/src/state.rs:299-317 | What a sender is left with after charge, payment and refund, wrap-arounds included |
| Conservation.TransferBooks | crates/consensus/src/state.rs:298-331 | Supply after + gas burned + value lost + counted wrap-arounds is the supply before, for every accepted transfer |
| Conservation.StakeBooks | crates/consensus/src/state.rs:501-536 | The same equation for every accepted stake transaction, balances and stakes together |
| Conservation.UnstakeBooks | crates/consensus/src/state.rs:537-609 | The same equation for every accepted unstake transaction, successful or not |
| Conservation.ContractBooks | crates/consensus/src/state.rs:386-500 | The same equation for failed deployments and for calls that fail or do not reach a contract |
| Conservation.StepBooks | crates/consensus/src/state.rs:246-615 | The equation for every transaction whose contract run, if any, does not succeed, with no range assumption |
| Solvency.SenderWrappedIff | crates/consensus/src/state.rs:298-317 | Some of the charge, the payment and the refund on the sender's copy wraps if and only if the cost exceeds the balance |
| Solvency.OverdrawnIff | crates/core/src/transaction.rs:119-127 | For an accepted transaction that pays its value, a real cost over the balance is exactly a total cost past 128 bits |
| Solvency.WrappedIff | crates/consensus/src/state.rs:246-615 | With a supply below 2^128, some operation of the step whose result is kept wraps if and only if the accepted transaction really costs more than the sender has |
| Solvency.InRangeNeverWraps | crates/core/src/transaction.rs:119-127 | With total cost and supply below 2^128 no such operation wraps |
| Solvency.SenderEndsIff | crates/consensus/src/state.rs:298-613 | Without a successful contract run and with supply below 2^128, an accepted sender ends at the exact balance less value and gas plus refund and returned stake if and only if that is not negative |
| Solvency.StepConservesIff | crates/consensus/src/state.rs:246-615 | Supply after + burned + lost is the supply before if and only if the transaction is rejected, its sender ends right, or the value wraps where it arrives |
| Solvency.StepConserves | crates/consensus/src/state.rs:246-615 | In particular for every total cost below 2^128 |
| Solvency.NothingLostIff | crates/consensus/src/state.rs:303-317 | An accepted transaction that conserves loses nothing if and only if it is no self-transfer of value and its full refund fits 64 bits |
| Solvency.OutOfRangeMints | crates/core/src/transaction.rs:124-127 | A concrete cost past 128 bits is accepted from an empty account and credits the receiver |
| Solvency.ReceiverPays | crates/core/src/transaction.rs:124-127 | With such a cost the borrow at the charge and the carry at the credit cancel: the books balance and the receiver has paid the gas |
| Solvency.OutOfRangeEndsRight | crates/core/src/transaction.rs:124-127 | A concrete cost past 128 bits that still ends right, so the range is not the exact condition |
| Solvency.SelfTransferLoses | crates/consensus/src/state.rs:303-317 | A concrete accepted transfer of 5 to oneself, in range and with nothing to refund, leaves 5 less |
| Solvency.RefundLoses | crates/consensus/src/state.rs:315-317 | A concrete accepted transaction, in range, whose refund of 2^64 comes back as nothing |
| Solvency.TransferMoves | crates/consensus/src/state.rs:303-331 | To another address: no other account and no validator changes, and the receiver gains the value and the sender pays it with the gas if and only if the exact balance is not negative |
| Solvency.StakeMoves | crates/consensus/src/state.rs:501-536 | The sender is an active validator and nobody else changes, and the value turns from balance into stake if and only if the exact balance is not negative |
| Solvency.UnstakeMoves | crates/consensus/src/state.rs:537-609 | Stake returns exactly when the sender is a validator holding enough of it, and then exactly that much; nobody else changes; the sender ends right if and only if the exact balance is not negative |
| Books.BlockBooks | crates/consensus/src/state.rs:243-615 | The books balance over any prefix of a block in which no contract run succeeds |
| Books.RebuildOnlyDrops | crates/consensus/src/state.rs:658-685 | An epoch rebuild never adds stake |
| Books.RunBooks | crates/consensus/src/state.rs:217-707 | Over every run of blocks and epoch changes in which no contract run succeeds: balances + stakes + gas burned + value lost + stake dropped + counted wrap-arounds is the starting supply |
| Books.RunWrapsIff | crates/consensus/src/state.rs:217-707 | From a supply below 2^128: over a run no operation ever wraps if and only if no accepted transaction really costs more than its sender has |
| Books.RunNeverWraps | crates/consensus/src/state.rs:217-707 | In particular none does while total costs are below 2^128 |
| Books.RunBalancesIff | crates/consensus/src/state.rs:217-707 | The books balance after every transaction of a run, without counting wrap-arounds, if and only if every transaction conserves by the condition of one step |
| Books.RunLosesNothingIff | crates/consensus/src/state.rs:303-317 | A run loses nothing if and only if no accepted transaction of it leaks |
| Books.RunConservesIff | crates/consensus/src/state.rs:217-707 | From a supply below 2^128 and where every transaction meets that condition, balances + stakes + burned gas + dropped stake equal the start if and only if the run is leak-free |
| CallBooks.RunBooks | crates/consensus/src/state.rs:427-440 | For a successful call whose deltas are not clamped: supply after + burned + lost + the sender's own delta + counted wrap-arounds is the supply before + the sum of the deltas |
| CallBooks.JournaledUnclamped | crates/vm/src/context.rs:89-115 | Transfers journaled over the ledger's own balances, below 2^127 in all, are never clamped when applied |
| CallBooks.CallConservesIff | crates/consensus/src/state.rs:427-440 | A successful call with journaled deltas that are not clamped conserves the supply if and only if the sender's own delta is zero |
| CallBooks.DeltaIs | crates/consensus/src/state.rs:162-178 | A delta is added to a balance below 2^127, clamped at zero, and changes nothing else of the account |
| CallBooks.CallMoves | crates/consensus/src/state.rs:427-445 | A successful call that is not overdrawn: the sender pays the gas, the deltas of the others arrive, the rest stay |
| CallBooks.DeployMoves | crates/consensus/src/state.rs:346-371 | A successful deployment that is not overdrawn: the sender pays value and gas, the contract starts with the value, nonce zero and its code, deltas arrive, the rest stay |
| CallBooks.DeployBooks | crates/consensus/src/state.rs:346-371 | Supply after + burned + lost + the replaced balance + the sender's own delta + counted wrap-arounds is the supply before + the sum of the deltas |
| CallBooks.DeployConservesIff | crates/consensus/src/state.rs:346-371 | With journaled deltas that are not clamped a deployment conserves if and only if replaced balance and sender's own delta add up to zero |
| Replay.StepNonce | crates/consensus/src/state.rs:257-300 | Every account's nonce after a step: one more for the accepted sender, zero for an address deployed onto, else unchanged |
| Replay.NonceAdvancesIff | crates/consensus/src/state.rs:353-356 | Nonces advance for the sender alone if and only if no deployment lands on another address in use |
| Replay.BlockCounts | crates/consensus/src/state.rs:246-615 | While no deployment resets a used nonce of the sender, the nonces it gets accepted in a block count up from its account, which ends past them |
| Replay.RunCounts | crates/consensus/src/state.rs:217-707 | The same across all blocks and epoch changes of a run, for all transaction kinds and VM answers |
| Replay.NoReplay | crates/consensus/src/state.rs:251-300 | Under the same condition, from nonce zero the accepted nonces are 0, 1, 2, ... and none repeats among the first 2^64 |
| Replay.NoReplayFromGenesis | crates/consensus/src/state.rs:107-111 | The same for every sender from any genesis |
| Replay.ResetReplays | crates/consensus/src/state.rs:353-356 | A concrete deployment onto an address in use makes its nonce 0 acceptable again |
| Epochs.SortPermutes | crates/consensus/src/state.rs:677-679 | The sort keeps the multiset of validators |
| Epochs.SortDescends | crates/consensus/src/state.rs:677-679 | The sort is descending by stake |
| Epochs.SortIsStable | crates/consensus/src/state.rs:677-679 | Validators of equal stake keep their order |
| Epochs.EligibleIs | crates/consensus/src/state.rs:674-675 | The filter keeps every copy at or above the minimum stake and none below |
| Epochs.RebuildKeepsTop | crates/consensus/src/state.rs:658-685 | A rebuild keeps a top max_validators by stake of the eligible, all of them if they fit, in descending order |
| Effects.KeptComesFrom | crates/consensus/src/state.rs:658-685 | Everyone kept was in the set at or above the minimum with the same key and stake, and is active if and only if active before or released from jail |
| Effects.OthersAreTopped | crates/consensus/src/state.rs:674-679 | Everyone at or above the minimum is kept, or the set is full of validators with at least as much |
| Epochs.ActiveSumIs | crates/core/src/validator.rs:91-93 | The cached total is the stake of exactly the active validators |
| Epochs.StepCoherent | crates/core/src/validator.rs:49-57 | Every transaction keeps addresses unique and the cached total equal to the active sum |
| Epochs.RunCoherent | crates/core/src/validator.rs:91-93 | So does every run of blocks and epoch changes |
| Epochs.GenesisCoherent | crates/core/src/genesis.rs:125-130 | A genesis with distinct validator addresses starts that way |
| Epochs.TiledContains | crates/core/src/epoch.rs:16-18 | A tiled epoch contains the next height |
| Epochs.RunTiles | crates/consensus/src/state.rs:650-656 | Over every run with epochs of two blocks or more the epoch number is (height + 1) / length and its bounds tile the heights |
| Epochs.TilesIff | crates/consensus/src/state.rs:125-131 | From every genesis, past the first block, the tiling holds if and only if the length is at least two |
| Epochs.ZeroLengthLasts | crates/consensus/src/state.rs:125-131 | With a length of zero the first epoch stays, below height 2^64 - 1 |
| Epochs.ReloadAgreesIff | crates/consensus/src/state.rs:69-76 | The number recomputed on reopening agrees if and only if the next height does not start an epoch |
| Merkle.NextLayer | crates/crypto/src/merkle.rs:38-48 | One loop round: parents of the layer, an odd end paired with itself |
| Merkle.NewTree | crates/crypto/src/merkle.rs:27-57 | The layers are the leaves and all layers above them; no leaves give the zero root |
| Merkle.RootNodeIs | crates/crypto/src/merkle.rs:60-66 | The first node of the last layer is the recursive root |
| Merkle.MakeProof | crates/crypto/src/merkle.rs:69-93 | No proof out of range, else the leaf and its sibling path with the clamped index |
| Merkle.VerifyProof | crates/crypto/src/merkle.rs:96-107 | Accepts exactly when climbing the path from the leaf reaches the root |
| Merkle.ProofClimbsToRoot | crates/crypto/src/merkle.rs:69-107 | Completeness: every leaf's proof verifies, for every number of leaves |
| Merkle.ProofLength | crates/crypto/src/merkle.rs:77-87 | A proof has as many siblings as the tree has layers above the leaves |
| Merkle.HeightIsLog | crates/crypto/src/merkle.rs:38-51 | That number is the least k with 2^k at least the number of leaves |
| Merkle.RootBinding | crates/crypto/src/merkle.rs:27-66 | Different leaf lists of one length with one root yield two different pairs with one digest |
| Merkle.ProofBinding | crates/crypto/src/merkle.rs:96-107 | An accepted proof of the shape of leaf i other than the honest one yields such pairs |
| Merkle.SameExpansionSameRoot | crates/crypto/src/merkle.rs:38-51 | Lists of any lengths whose full trees agree from the lower height up have the same root |
| Merkle.SameRootSameExpansion | crates/crypto/src/merkle.rs:38-51 | No other lists do, whatever their lengths, or a clash is at hand |
| Merkle.RepeatedLastLeaf | crates/crypto/src/merkle.rs:39-42 | Repeating the last leaf of an odd list keeps the root, so the root does not bind the length |
| Framing.HashMultiple | crates/crypto/src/hash.rs:76-83 | Feeding lengths and items one by one hashes the framed list |
| Framing.FrameInjective | crates/crypto/src/hash.rs:76-83 | The framing is uniquely decodable for items under 2^64 bytes |
| Framing.FrameBinding | crates/crypto/src/hash.rs:76-83 | Different item lists with one digest are a collision of the hash function |
| MerkleOverBytes.ClashCollides | crates/crypto/src/merkle.rs:45-48 | Two different pairs with one digest are a collision of the hash function |
| MerkleOverBytes.ComputeMerkleRoot | crates/crypto/src/merkle.rs:116-119 | The root over the hashes of the raw items |
| MerkleOverBytes.ItemsBinding | crates/crypto/src/merkle.rs:116-119 | Equally many different items with one root yield a collision of the hash function |
| Quorum.ThresholdIsTwoThirdsIff | crates/core/src/validator.rs:85-88 | With active stake below 2^128, the threshold is two thirds of it rounded up if and only if it is below 2^127 |
| Quorum.StakeOfUnion | crates/core/src/validator.rs:75-77 | Stakes of two voter sets add up to those of union and intersection |
| Quorum.QuorumsIntersect | crates/core/src/validator.rs:84-88 | With active stake below 2^127, two voter sets that reach the threshold share at least a third of it |
| Quorum.HonestVoterInBoth | crates/core/src/validator.rs:84-88 | With less than a third of the active stake faulty they share an active honest validator |
| Finality.FinalityEngine.AddVote | crates/consensus/src/finality.rs:80-107 | The engine after a vote is the one of the vote function, whose answers, heights and kept votes `VoteIs` states |
| Finality.FinalityEngine.IsValidator | crates/core/src/validator.rs:80-82 | True exactly for the address of some active unjailed validator |
| Finality.FinalityEngine.CheckQuorum | crates/consensus/src/finality.rs:109-151 | At or above the threshold the height becomes final and votes up to it go, those above it stay; below it nothing changes |
| Finality.FinalityEngine.RemoveThrough | crates/consensus/src/finality.rs:132-141 | In any order, exactly the entries above the height remain |
| Finality.VoteIs | crates/consensus/src/finality.rs:80-151 | Every answer to a vote, and height by height what is held afterwards: a finalizing vote makes its height the finalized one, keeps all votes above it and none up to it; any other admitted vote is appended to its height |
| Finality.JailedIsRefused | crates/core/src/validator.rs:60-82 | With unique addresses a validator's votes are taken if and only if it is active and not in jail |
| Finality.FinalizedStep | crates/consensus/src/finality.rs:127-130 | The finalized height changes only by an admitted vote answered so, to that vote's height |
| Finality.RunKeepsVotes | crates/consensus/src/finality.rs:94-141 | Over every run, for each height above the finalized one, the engine holds exactly its initial votes and those admitted since, in order |
| Finality.SetChangeReachesQuorum | crates/consensus/src/finality.rs:174-176 | A concrete change of the set leaves an open height at its quorum, because stored votes are not checked again |
| Finality.RunFiled | crates/consensus/src/finality.rs:94-141 | Over every run the finalized height never falls and every stored vote is for a height above it |
| Finality.RunOpen | crates/consensus/src/finality.rs:109-151 | From any engine, over every run with any changes of the set: a stored height that got an admitted vote since the last change is below the quorum |
| Finality.FixedSetOpen | crates/consensus/src/finality.rs:80-151 | Hence with a fixed set every open height is below the quorum |
| Finality.TallySplits | crates/consensus/src/finality.rs:113-117 | For unique addresses the tally is the stake of the distinct voters plus the stake behind repeated votes |
| Finality.TallyIsStakeIff | crates/consensus/src/finality.rs:113-117 | The tally counts distinct voters if and only if no validator with stake appears twice in the list |
| Finality.FinalizedByTwoThirds | crates/consensus/src/finality.rs:80-151 | With one vote per voter and active stake below 2^127 a vote finalizes its height if and only if the distinct voters hold two thirds of the active stake |
| Finality.RunFinalizesByTwoThirds | crates/consensus/src/finality.rs:80-151 | In every run with a fixed set and at most one admitted vote per validator and height, a vote finalizes if and only if all validators with a vote admitted for the height hold two thirds |
| Finality.FinalizedWithSplitVotes | crates/consensus/src/finality.rs:99-117 | In such a run a vote finalizes exactly when the stake for its block and the stake for other blocks together reach two thirds |
| Finality.FinalizedBlockHasTwoThirds | crates/consensus/src/finality.rs:62-63 | If all votes for the height name one block, finalization is exactly two thirds for that block |
| Finality.NodesAgree | crates/consensus/src/finality.rs:62-63 | Agreement: two nodes with one set, less than a third of the stake with conflicting admitted votes, and each node's votes for a height naming one block, never finalize different blocks there |
| Finality.SignerIsNotCompared | crates/consensus/src/finality.rs:43-52 | The answer to a vote does not depend on whose key it carries, only on the validator it names |
| Finality.RepeatedVotesFinalize | crates/consensus/src/finality.rs:99-117 | One validator of three finalizes alone by voting twice |
| Finality.SplitVotesFinalize | crates/consensus/src/finality.rs:99-117 | Two votes for different blocks finalize a height that neither block has two thirds for |
| Proposer.SelectProposer | crates/consensus/src/pos.rs:14-58 | Errors for no validators and no stake, the only validator, or the first position whose running sum exceeds the draw |
| Proposer.ChosenIff | crates/consensus/src/pos.rs:48-54 | With the total below 2^128, position i is chosen if and only if the target lies between the stake before it and the stake up to it |
| Proposer.ExactlyProportional | crates/consensus/src/pos.rs:38-54 | Exactly stake of the total targets choose each position |
| Proposer.FallbackUnreachable | crates/consensus/src/pos.rs:56-57 | The loop always ends before the fallback |
| Proposer.OneProposerVerifies | crates/consensus/src/pos.rs:61-75 | With total stake below 2^128 exactly one address verifies: the only validator's, or that of the one with stake whose interval holds the target |
| Proposer.NobodyVerifiesIff | crates/consensus/src/pos.rs:61-75 | No address verifies if and only if there is no validator, or there are several whose stake is zero in 128 bits |
| Pool.TransactionPool.Insert | crates/consensus/src/tx_pool.rs:34-82 | The four refusals in order, else both maps gain the transaction; index agreement is kept |
| Pool.TransactionPool.Remove | crates/consensus/src/tx_pool.rs:85-99 | Both maps lose the transaction, an emptied group disappears; index agreement is kept |
| Pool.TransactionPool.PruneCommitted | crates/consensus/src/tx_pool.rs:156-160 | All listed hashes are removed; index agreement is kept |
| Pool.InsertIs | crates/consensus/src/tx_pool.rs:34-82 | When an insert is refused and with which answer; otherwise the pool gains exactly the transaction |
| Pool.PrunedIs | crates/consensus/src/tx_pool.rs:156-160 | Pruning removes exactly the listed hashes from the pool |
| Pool.RunHolds | crates/consensus/src/tx_pool.rs:34-160 | After any operations a hash is pending if and only if its last successful insert is not followed by a removal, and it stands for that transaction |
| Pool.RunAgrees | crates/consensus/src/tx_pool.rs:34-99 | After any operations the index holds exactly the pool's (nonce, hash) pairs by sender, with no empty group, within the size limit |
| Pool.TransactionPool.SelectTransactions | crates/consensus/src/tx_pool.rs:118-153 | The result is the greedy choice from the sorted pool, for the order the map was listed in; when no compared sum overflows it is pooled, distinct, ordered, within both limits and greedy-maximal |
| Pool.SortedIs | crates/consensus/src/tx_pool.rs:128-129 | The sort permutes the candidates into price-descending, nonce-ascending order |
| Pool.PickedFits | crates/consensus/src/tx_pool.rs:131-150 | The greedy choice respects the gas and the count limit when no compared sum overflows 64 bits |
| Pool.PickedIsMaximal | crates/consensus/src/tx_pool.rs:134-150 | Likewise: anything passed over would exceed the final gas total, or the count is full |
| Pool.NeverOverrunsIff | crates/consensus/src/tx_pool.rs:139-142 | A transaction pushes no pool of itself and one that fits past the gas limit if and only if its gas limit added to the block's stays below 2^64 |
| Pool.SelectionIsGood | crates/consensus/src/tx_pool.rs:116-153 | For every listing order, when no compared sum overflows: pooled, distinct, ordered, within both limits, greedy-maximal |
| Pool.SelectionInOrderIff | crates/consensus/src/tx_pool.rs:116-117 | For every pool and listing: selection keeps each sender's nonces in order under all limits if and only if no pooled transaction outbids an earlier nonce of its sender |
| Pool.OutbidIsSelectedFirst | crates/consensus/src/tx_pool.rs:116-117 | A concrete sender whose second transaction is selected before the first |
| Production.StepGas | crates/consensus/src/state.rs:302-612 | A receipt's gas is within its transaction's limit when that covers the base gas and the VM keeps to it |
| Production.NativeGasIff | crates/consensus/src/state.rs:315-330 | For accepted transfers and staking that is exactly when |
| Production.ReceiptsInOrder | crates/consensus/src/state.rs:246-274 | One receipt per transaction, the i-th with its hash, block number, position and step outcome |
| Production.ProducedHeaderIsValid | crates/core/src/block.rs:76-81 | A block filled from the pool reports no more gas than its limit when every limit covers the base gas |
| Production.SmallLimitOverruns | crates/core/src/block.rs:76-81 | A concrete transfer with gas limit 1 fits a block limit of 1 and overruns it |
| Production.HeaderGasIs | crates/consensus/src/engine.rs:212-212 | The header's gas is the sum over the receipts in 64 bits |
| Production.ActiveIs | crates/core/src/validator.rs:59-62 | The proposer list holds every copy of every active unjailed validator and nobody else |
| Production.ActiveInOrder | crates/core/src/validator.rs:59-62 | and in the order of the set |
| Production.NotifiedIs | crates/consensus/src/engine.rs:224-233 | The finality engine has the new set exactly after an epoch's last block, and the node's own vote is held or has finalized its height |
| Production.TryProduceBlock | crates/consensus/src/engine.rs:153-233 | A block exactly when it is our turn: a child of the head with the pool's selection, applied and pruned, then the epoch check, whose new set the finality engine gets before the node's own vote |
| ContractSwaps.HexInjective | contracts/bridge/src/lib.rs:618-626 | Different byte strings have different hexadecimal strings |
| ContractHost.HexEncode | contracts/bridge/src/lib.rs:618-626 | The loop produces the hexadecimal string |
| ContractHost.MakeHtlcKey | contracts/bridge/src/lib.rs:90-94 | The buffer is the record key of the lock |
| ContractHost.MakeBalanceKey | contracts/bridge/src/lib.rs:104-112 | The buffer is the balance key of chain, token and address |
| ContractHost.MakeSupplyKey | contracts/bridge/src/lib.rs:114-120 | The buffer is the supply key of chain and token |
| ContractHost.EncodeHtlc | contracts/bridge/src/lib.rs:132-140 | The appended buffer is the record |
| ContractHost.DecodeHtlc | contracts/bridge/src/lib.rs:150-172 | The slices give the record, or none below 65 bytes |
| ContractHost.ParseHeader | contracts/bridge/src/lib.rs:441-455 | The offsets find chain, token and rest, and fail exactly when one of the slices is out of range |
| ContractHost.ParseLock | contracts/bridge/src/lib.rs:378-403 | The checked offsets find the same chain and token and succeed exactly when all three fields lie within the arguments |
| ContractArgs.HeaderIs | contracts/bridge/src/lib.rs:441-455 | Reading fields one after the other is slicing at the offsets, and exactly when that is possible |
| ContractArgs.ParseOfBuilt | contracts/bridge/src/lib.rs:428-455 | Parsing gives back the chain, token and rest that arguments were built from |
| ContractArgs.BuiltOfParse | contracts/bridge/src/lib.rs:428-455 | Every argument that parses was built so |
| ContractKeys.ExecFrame | contracts/bridge/src/lib.rs:178-601 | Every call leaves all keys alone but those of its own class |
| ContractKeys.KeysSpelled | contracts/bridge/src/lib.rs:5-16 | Every key is spelled as the storage layout says |
| ContractAdmin.OwnerIs | contracts/bridge/src/lib.rs:178-188 | `init` makes its caller the owner and no other call changes the owner |
| ContractAdmin.OwnerIsLastInit | contracts/bridge/src/lib.rs:178-188 | Over every run the owner is the caller of the last `init`, whoever that is |
| ContractAdmin.SecondInitReplacesOwner | contracts/bridge/src/lib.rs:178-188 | A second `init` by another caller replaces the owner |
| ContractAdmin.RunKeepsFee | contracts/bridge/src/lib.rs:178-188 | Over every run the stored fee is absent or ten basis points |
| ContractHost.BridgeContract.CreateHtlc | contracts/bridge/src/lib.rs:194-241 | Panic when paused, failure for short arguments, no amount or a used lock, else a new active record and one more in the count |
| ContractHost.BridgeContract.ClaimHtlc | contracts/bridge/src/lib.rs:247-301 | Pays the recipient and marks the record exactly when the preimage's record is active, the caller its recipient and the time before the deadline |
| ContractHost.BridgeContract.RefundHtlc | contracts/bridge/src/lib.rs:306-360 | Pays the sender and marks the record exactly when it is active, the caller its sender and the deadline reached |
| ContractCalls.CreateStores | contracts/bridge/src/lib.rs:194-241 | A swap from the caller to the named recipient over the attached amount is stored if and only if the contract is not paused, something is attached and the lock is unused |
| ContractCalls.ClaimPays | contracts/bridge/src/lib.rs:247-301 | A claim succeeds, pays the caller once and marks the record if and only if the preimage opens an active record of the caller in time |
| ContractCalls.RefundPays | contracts/bridge/src/lib.rs:306-360 | A refund does so if and only if the record is active, the caller its sender and the deadline reached |
| ContractCalls.LockMoves | contracts/bridge/src/lib.rs:366-423 | A lock adds the net amount to the total of its string and no other if and only if not paused and something is attached |
| ContractAdmin.FeeNeverBorrows | contracts/bridge/src/lib.rs:411-414 | In every state of every run the fee is nothing or a thousandth of the amount, and the net amount is the difference |
| ContractAdmin.RunLocks | contracts/bridge/src/lib.rs:416-419 | Over every run the stored total of each chain:token string is the sum of what its successful locks brought in after the fee, in 128 bits |
| ContractHost.BridgeContract.BridgeMint | contracts/bridge/src/lib.rs:429-473 | Owner only, not paused, parse or panic; balance and supply each grow in 128 bits |
| ContractHost.BridgeContract.BridgeBurn | contracts/bridge/src/lib.rs:478-527 | Fails without the balance, else balance and supply shrink |
| ContractCalls.MintMoves | contracts/bridge/src/lib.rs:429-473 | A mint succeeds if and only if from the owner and not paused, and credits exactly the named address of the named token |
| ContractCalls.BurnMoves | contracts/bridge/src/lib.rs:478-527 | A burn succeeds if and only if not paused, long enough and covered, and debits exactly the caller |
| ContractCalls.RunBalance | contracts/bridge/src/lib.rs:429-527 | Over every run without an overflowing mint each stored balance is what was minted to that address less what it burned |
| ContractCalls.AddSets | contracts/bridge/src/lib.rs:532-554 | Exactly the owner adds a validator, and exactly its flag is set |
| ContractCalls.RemoveClears | contracts/bridge/src/lib.rs:559-583 | Exactly the owner removes a validator, and exactly its flag is cleared |
| ContractCalls.PauseSets | contracts/bridge/src/lib.rs:587-601 | Exactly the owner pauses and resumes |
| ContractCalls.MalformedChangesNothing | contracts/bridge/src/lib.rs:194-583 | Arguments that are too short, or whose fields run past the end, change nothing |
| ContractCounts.CallCountsIff | contracts/bridge/src/lib.rs:532-583 | A call keeps the stored count equal to the number of set flags if and only if it does not add a set flag, remove an unset one from a positive count, repeat `init` over a positive count or overflow |
| ContractCounts.RunCounts | contracts/bridge/src/lib.rs:532-583 | Over every run without such calls the count is the number of set flags |
| ContractCounts.AddedTwiceMiscounts | contracts/bridge/src/lib.rs:532-554 | Adding one validator twice counts two for one flag |
| ContractCounts.CallCountsSwapsIff | contracts/bridge/src/lib.rs:178-241 | A call keeps the stored number of swaps equal to that of the records, in 64 bits, if and only if it is no `init` over a number that is not zero |
| ContractCounts.RunCountsSwaps | contracts/bridge/src/lib.rs:178-241 | Over every run without such an `init` it is the number of records |
| ContractAdmin.PausedFreezes | contracts/bridge/src/lib.rs:587-601 | From a paused state until `init` or the owner's `unpause`, over every run: still paused, same owner, no token balance, supply or locked total changed and no swap opened |
| ContractSwaps.KeysBindLocks | contracts/bridge/src/lib.rs:90-94 | Different locks have different record keys |
| ContractSwaps.DecodeEncode | contracts/bridge/src/lib.rs:132-172 | Decoding an encoded record gives it back |
| ContractSwaps.EncodeDecode | contracts/bridge/src/lib.rs:132-172 | A record of 65 bytes re-encodes to itself |
| ContractSwaps.ExecMoves | contracts/bridge/src/lib.rs:178-601 | Any call leaves a record and its payouts alone, creates it, claims it in time by preimage, or refunds it after the deadline, with one payout to the right party |
| ContractSwaps.RunKeepsSwapsOk | contracts/bridge/src/lib.rs:178-601 | Over every run every record has 65 bytes, a known status and an amount that fits 64 bits, and is paid once if settled and not otherwise |
| ContractSwaps.RecordsAreKept | contracts/bridge/src/lib.rs:194-360 | From any point of a run to any later one a record keeps its parties, amount and deadline, and its status once settled |
| ContractSwaps.LockUsedOnce | contracts/bridge/src/lib.rs:224-230 | Once a lock has a record every later creation with it fails |
| ContractSwaps.PaidAtMostOnce | contracts/bridge/src/lib.rs:292-297 | Over every run from a fresh contract at most one payout is attempted per lock |
| ContractTokens.BalanceKeyInjective | contracts/bridge/src/lib.rs:104-112 | A balance key determines its chain:token string and its address |
| ContractTokens.TokenKeysAre | contracts/bridge/src/lib.rs:104-120 | Balance and supply keys never coincide |
| ContractTokens.MintKeepsIff | contracts/bridge/src/lib.rs:461-469 | A mint keeps supply equal to the sum of balances if and only if balance and supply overflow together |
| ContractTokens.BurnKeeps | contracts/bridge/src/lib.rs:509-523 | A burn never saturates and keeps every token's books |
| ContractTokens.CallKeeps | contracts/bridge/src/lib.rs:178-601 | Every call without an overflowing mint keeps every token's books |
| ContractTokens.RunKeepsBooks | contracts/bridge/src/lib.rs:178-601 | Over every run without one, each token's stored supply is the sum of its stored balances over all addresses |
| Sha256Spec.RoundConstantsAre | contracts/bridge/src/lib.rs:632-649 | Each table entry is the first 32 bits of the fraction of the cube root of its prime |
| Sha256Spec.InitialWordsAre | contracts/bridge/src/lib.rs:651-654 | Each initial word is the first 32 bits of the fraction of the square root of its prime |
| Sha256.Pad | contracts/bridge/src/lib.rs:656-663 | The padding loop ends, with the mark, the fill and the 64-bit length after the data |
| Sha256.WholeBlocks | contracts/bridge/src/lib.rs:656-663 | The padded message is a whole number of blocks |
| Sha256.PaddingIsStandard | contracts/bridge/src/lib.rs:656-663 | Bit by bit this is the padding of section 5.1.1 of FIPS 180-4 for every message under 2^64 bits |
| Sha256.PaddingInjective | contracts/bridge/src/lib.rs:656-663 | Different messages stay different when padded |
| Sha256.RotationsAre | contracts/bridge/src/lib.rs:677-678 | The rotations are the sigma functions of the standard |
| Sha256.FillSchedule | contracts/bridge/src/lib.rs:667-683 | The array filled in place is the message schedule of section 6.2.2 of FIPS 180-4 |
| Sha256.RunRounds | contracts/bridge/src/lib.rs:685-714 | The loop over eight variables is the sixty-four rounds of the standard |
| Sha256.CompressBlock | contracts/bridge/src/lib.rs:666-724 | One block is compressed as the standard says |
| Sha256.SimpleSha256 | contracts/bridge/src/lib.rs:630-731 | The whole function is padding, the fold over the blocks and the big-endian output |
| Sha256.DigestIsStandard | contracts/bridge/src/lib.rs:630-731 | For messages under 2^64 bits the digest is the standard's hash of the standard's padded message |
| Swaps.HtlcManager.CreateSwap | crates/bridge/src/htlc.rs:88-142 | Refused for a used id, no amount or a deadline not in the future, else stored and listed under both parties |
| Swaps.HtlcManager.ClaimSwap | crates/bridge/src/htlc.rs:148-191 | The refusals in order, a late claim marking the swap expired, else claimed with preimage and time |
| Swaps.HtlcManager.RefundSwap | crates/bridge/src/htlc.rs:196-230 | The refusals in order, else refunded with the time |
| Swaps.HtlcManager.ExpireStaleSwaps | crates/bridge/src/htlc.rs:277-287 | In any order exactly the stale swaps become expired, and the count is their number |
| Swaps.CreateOpens | crates/bridge/src/htlc.rs:88-142 | A swap is opened, with the parties, amount and lock asked for, if and only if the lock is unused, the amount positive and the deadline to come; each refusal by its condition |
| Swaps.ClaimSettles | crates/bridge/src/htlc.rs:148-191 | A claim succeeds if and only if by the recipient, in time, with the preimage, of an unsettled swap; each refusal by its condition |
| Swaps.RefundSettles | crates/bridge/src/htlc.rs:196-230 | A refund succeeds if and only if by the sender, from the deadline on, of an unsettled swap; each refusal by its condition |
| Swaps.UnknownIsRefused | crates/bridge/src/htlc.rs:148-205 | Without the swap both answer that it is not found |
| Swaps.ExpireMarks | crates/bridge/src/htlc.rs:277-287 | A maintenance pass marks exactly the active swaps past their deadline |
| Swaps.ExpireIsInvisible | crates/bridge/src/htlc.rs:276-287 | Deleting every maintenance pass from any run changes no answer of it, whatever the clock does |
| Swaps.NextMoves | crates/bridge/src/htlc.rs:148-230 | A swap is claimed only in time with its preimage by its recipient, refunded only after the deadline by its sender, and settled swaps stay as they are |
| Swaps.SettlesOnce | crates/bridge/src/htlc.rs:159-164 | Over every run the successful claims and refunds of a swap number one if it is settled and none otherwise |
| Swaps.RunIndexed | crates/bridge/src/htlc.rs:134-139 | Over every run each index list holds exactly the ids of its party's swaps, once each |
| Journal.SlotKeyInjective | crates/storage/src/db.rs:185-190 | A database key determines its address and slot |
| Journal.ReadsAgree | crates/vm/src/context.rs:70-86 | After any writes and deletes a journaled read is the read of a database written straight through |
| Journal.FlushIsThrough | crates/consensus/src/state.rs:359-364 | Any flush of the journal is the database written straight through |
| Journal.ExecutionContext.StorageRead | crates/vm/src/context.rs:70-76 | The journal first, then the database |
| Journal.ExecutionContext.Transfer | crates/vm/src/context.rs:99-115 | Refused without the balance, else both deltas move |
| Journal.MoveStands | crates/vm/src/context.rs:89-115 | A journaled transfer is the direct transfer, refusals included |
| Journal.TransfersAgree | crates/vm/src/context.rs:89-115 | Over any transfers with a total base balance below 2^127, base plus delta is the directly moved balance and the deltas sum to zero |
| Journal.BalancesAgree | crates/vm/src/context.rs:89-96 | The balance read through the journal is that balance: the clamp never fires |
| Journal.UntouchedReadsIff | crates/vm/src/context.rs:89-96 | An untouched account shows its balance if and only if it is below 2^127 |
| Journal.ReadsRightIff | crates/vm/src/context.rs:89-115 | Every sequence of transfers leaves every balance reading right if and only if there is less than 2^127 in all |

## Left out

- Conservation across contract runs whose deltas are clamped: the virtual machine reads stored accounts rather than the overlay, so there is no such equation; whole-run conservation is for runs without successful contract runs.
- Solvency.NothingLostIff: for transactions that conserve; elsewhere a loss can hide a wrap-around.
- ContractHost.ParseLock: offsets are added as in a 64-bit build; on wasm32 the sum with a length has 32 bits and can wrap, which is not modelled.
- ContractHost.ParseHeader: likewise.
- Finality.RunFinalizesByTwoThirds: needs one admitted vote per validator and height and active stake below 2^127; otherwise repeated stake counts too, as `TallySplits` says.
- Heights, block numbers and epoch numbers are unbounded; their 64-bit limits are not modelled.
- Database errors, persisted validator records and receipts, the state root, and the logs, return data and block hash of receipts.
- Reopening an existing database: only its epoch formula; it also restarts from the genesis validators.
- Signature and structure checks of transactions, votes and headers: their outcome is an input.
- Slashing, double-sign detection, the network, the API, the node and the wallet.
- The WASM engine, its gas metering and host calls: its answers are inputs.
- Contract events, the two read-only counters, and solvency of the contract's recorded amounts against its balance.
- Pool: insertion times; pruning by age is removal of some list of hashes.
- Swaps: listing, counting and the descriptive fields about the external chain.
- That the sixty-four numbers behind the SHA-256 constants are the first primes.
