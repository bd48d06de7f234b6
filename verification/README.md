# A verified model of the VeChainThor node core

The project models the parts of the VeChainThor node where many cases must fit together, and proves what
they promise for every input and every run:

- **The versioned Merkle Patricia trie** (`trie/`, `muxdb/backend.go`): nibble keys and their compact form,
  the byte format of stored nodes, lookups through refs that load on demand, insertion, deletion, hashing and
  storing with cached hashes, embedded nodes and cache TTL. `Trie.Trie` is the trie with its database;
  `TrieRuns.Run` is about whole runs of it.
- **The chain index** (`chain/`): each block's index trie answers ancestor queries in the block tree.
- **The revertible state** (`stackedmap/`, `state/`): a journal of typed changes over checkpoints, account
  deletion by storage barriers, and staging, which replays the journal into tries.
- **The finality engine** (`bft/`): rounds of 180 blocks, vote sets that are carried along in place, caches that
  may lose entries, saved qualities, a binary search over rounds, and the finalized checkpoint.
- **Schedule, packer and validator** (`poa/sched_v2.go`, `packer/`, `consensus/`, `block/gas_limit.go`): what one
  node packs, every other node accepts.
- **Running a transaction** (`runtime/`, `builtin/energy`, `builtin/prototype`): buying gas, clauses above a checkpoint,
  snapshots of the virtual machine, refunds, credit and reward, all on the revertible state, and what an error leaves
  behind.
- **Jump destinations** (`vm/analysis.go`, `vm/contract.go`): the bit vector against the scan of section 9.4.3 of
  the Ethereum Yellow Paper.

`dafny verify dfyconfig.toml` checks the whole project.

## How the model is built

Objects that the program updates in place are classes (`Trie`, `NodeDb`, `Store`, `Repository`, `StackedMap`, `State`,
`StateDb`, `Justifier`, `Engine`, `BitmapCache`, `Contract`, `Flow`, `Executor`), loops are loops, and each such method
is proved against functions on values. Pure code is functions, and lemmas state what it promises.

- The trie is compared with an abstract tree (`TrieTree.Tree`) and that with a finite map. `TrieStore.Rep` says what it
  means that a node, with its refs into the database, stands for a tree.
- The hash function is a parameter that returns 32 bytes. Nothing else is assumed of it, except where a statement
  names the inputs on which it must not collide. An unset hash is the empty byte string. RLP follows Appendix B of the
  Yellow Paper.
- In the trie modules `Outcome` separates what the program returns: a result, a missing node, or bytes no commit ever
  wrote (on these it panics or fails to decode).
- A storage root stands for the contents of its trie and an account trie for a map from addresses; that tries behave
  as such maps is what the trie modules prove. Keys of these tries are hashed by the program; two keys with one hash
  are not modelled.
- The block tree, the transactions on the chain, the clock, the proposer list, the order of proposers given by seed and
  hash, and the virtual machine are parameters. Block headers never change, so the engine reads a fixed tree of blocks
  in which any block may be asked for in any order.
- The virtual machine may do anything to the state that its interface offers: writes, snapshots, going back to
  snapshots, breaking down at any point. `Runtime.MachineOk` says what is asked of it: it returns no more gas than it
  was given, and it goes back to a snapshot only while that is open, as the calls of `vm/evm.go` do. What it did is
  executed on the state (`StateDb.Act`), and every revert is derived from the stacked map, not assumed.
- The books of energy and credit are accounts and raw storage of two builtin contracts. `Ledger.Codec.Ok` asks that
  their encodings are read back and that hashed storage keys do not collide.
- Packer and validator each start from the parent's state; the state root is a function of the journal that staging
  replays.
- Caches lose arbitrary entries: the engine model drops any set of entries at any time.
- What a definition shared by several operations computes is stated once more without it: bytes in `Formats` and
  `TrieRoots`, vote counts and finality in `FinalityRule`, clauses in `Clauses`, headers and transactions of a block in
  `BlockRules`, prices, energy, credit, slots and scores beside their definitions.

## What turned out to hold only under a condition

- **Committing with and without hashes.** A ref without a hash does not survive a commit that stores hashes: the decoder
  always reads 32 bytes. `TrieNode.RefSurvivesIffHashed` gives the exact condition; `Trie.Trie.Commit` therefore asks
  that a trie which has lost its hashes is committed without them.
- **History keys without partitions.** With the partition factor 2^32 - 1 the versions 0 and 2^32 - 1 of a node share a
  key. `NodeKeys.KeysClashIff` gives the exact condition, `NodeKeys.ClashWithoutPartitions` the pair.
- **Going back to a mark.** Writes made while the depth is at the mark belong to the level that stays. `PopTo` restores
  the stack exactly when there were none (`StackedMap.PopToRestoresIff`, `StackedMap.WritesAtTheMarkStay`).
- **Storage of an empty account** is dropped by staging. `Stage.StorageSurvivesIff` says exactly when storage reads
  survive.
- **A committed root opens only if its hash does not stand for an empty trie.** The all-zero hash and the hash of the
  empty trie always open as empty. `Trie.Trie.Commit` says that a committed map opens at exactly the other hashes;
  `Trie.ZeroHashOpensEmpty` is the failing input.
- **A committing round may fail to finalize**, exactly when the finalized checkpoint is the checkpoint of that very
  round (`Engine.Engine.CommitBlock`). The quality stays saved. `EngineFork.FailingCommit` runs the engine into it, on
  the tree of blocks that `EngineFork.ForkExists` builds.
- **An error of ExecuteTransaction leaves the state alone**, when the gas costs something, exactly if it comes before the
  purchase; later errors leave the purchase and whatever the clauses wrote (`Fees.ErrorLeavesStateIff`,
  `Fees.ErrorAfterPurchase`). The packer's checkpoint puts the state back (`Packer.Flow.Try`).
- **Exclude with unknown heads.** `Chain.Repository.Exclude` fails exactly when a head that is needed is not there
  (`Chain.Stuck`); an unknown other head of number 0 or 1 is passed over.
- **The gas check of the packer** adds in 64 bits. It bounds what a transaction may use exactly when the sum does not
  wrap around (`Packer.GasCheckIff`, `Packer.GasCheckWraps`).
- **User credit** drops by exactly what was paid unless a clause lowers the credit plan below that
  (`Fees.CreditDropsByPaid`, and `Fees.CreditNeedNotDrop` for a clause that does).

## Where comments and code differ

- `poa/sched_v2.go:27-29` promises an error for a proposer that is not active. The code accepts every listed proposer
  and puts it into the order; the model follows the code.
- `trie/vp.go:33-42` says that SplitString panics when it fails. It returns an error for a bad prefix and panics only
  when the buffer is too short; the model treats both as a failure to decode.

## Model

| member | source | states |
|---|---|---|
| HexPrefix.KeybytesToHexLoop | trie/encoding.go:97-106 | The loop fills the buffer with the two nibbles of every byte and the terminator. |
| HexPrefix.KeybytesToHexInjective | trie/encoding.go:97-106 | Different keys have different nibble forms. |
| HexPrefix.KeyNibbles | trie/encoding.go:97-106 | Each byte is 16 times its first nibble plus its second, and 16 closes the key. |
| HexPrefix.HexToKeybytesInverse | trie/encoding.go:97-120 | Decoding undoes encoding, and fails exactly on terminated strings that no key encodes to. |
| HexPrefix.CompactRoundTrip | trie/encoding.go:37-95 | Decoding the compact form gives back every nibble string, odd or even, with or without terminator. |
| HexPrefix.CompactInjective | trie/encoding.go:37-52 | Different nibble strings have different compact forms. |
| HexPrefix.CompactNibbles | trie/encoding.go:37-52 | The nibbles of the compact form: two bits for terminator and odd length, a zero nibble if even, the nibbles of the key. |
| HexPrefix.CompactToHexNibbles | trie/encoding.go:83-95 | Any bytes are read by their first nibble: its low bit tells an odd length, a value from 2 on a terminator. |
| HexPrefix.AppendHexToCompact | trie/encoding.go:54-81 | Appending to a buffer writes the same compact form, of the announced length, and keeps what was there. |
| HexPrefix.PrefixLenUnique | trie/encoding.go:129-140 | The common prefix length is the one number at which the strings agree before it and differ or end at it. |
| HexPrefix.PrefixLenLoop | trie/encoding.go:129-140 | The loop computes that length. |
| ByteStrings.UvarintRoundTrip | trie/vp.go:23-52 | A 64-bit number followed by any rest is read back with that rest. |
| ByteStrings.UvarintGroups | trie/vp.go:23-26 | A varint is groups of seven bits, least significant first, all but the last marked, the last not an idle zero. |
| ByteStrings.LessAt | poa/sched_v2.go:67-74 | The order of byte strings: the first difference decides, and a proper prefix comes first. |
| TrieNode.StringRoundTrip | trie/vp.go:28-42 | A length-prefixed string followed by any rest is read back with that rest. |
| TrieNode.ChildrenRoundTrip | trie/node.go:171-207 | The children of a full node followed by any rest are read back one by one. |
| TrieNode.NodeRoundTrip | trie/node.go:132-403 | Decoding an encoded node followed by any rest returns that rest and the node with clean children turned into refs. |
| TrieNode.DecodeRefIndependent | trie/node.go:132-169 | The ref handed to the decoder sets only the flags of the outermost node and never decides about success. |
| TrieNode.HashIsAlways32 | trie/node.go:259-273 | A decoded ref that has a hash has one of 32 bytes. |
| TrieNode.RefSurvivesIffHashed | trie/node.go:259-403 | Stored with hashes, a ref is read back exactly when its hash has 32 bytes. |
| Formats.RefBytes | trie/node.go:380-403 | A stored ref: kind 3, a bit each for hash, major and minor version, then those that are there. |
| Formats.LeafBytes | trie/node.go:327-357 | A stored leaf: kind 2, a bit for metadata, the compact key, value and metadata behind their lengths. |
| Formats.ExtensionBytes | trie/node.go:327-357 | A stored short node above others: kind 2, the compact key, the child or its ref. |
| Formats.FullBytes | trie/node.go:297-325 | A stored full node: kind 1, a bit if more than four children are refs, the children in order. |
| Formats.ValueBytes | trie/node.go:360-378 | A stored value: kind 4, a bit for metadata, value and metadata behind their lengths. |
| NodeKeys.AppendNodePath | muxdb/backend.go:81-94 | The loop appends the path bytes of a node. |
| NodeKeys.PathRoundTrip | muxdb/backend.go:81-94 | A path followed by any bytes can be read back, so paths end by themselves. |
| NodeKeys.PathsPrefixFree | muxdb/backend.go:81-94 | No path's bytes are a prefix of another's. |
| NodeKeys.AppendHistNodeKey | muxdb/backend.go:26-56 | The steps append exactly the key of the node version and keep the buffer. |
| Formats.PathBytes | muxdb/backend.go:81-94 | Two nibbles take two bytes, with a mark if more follow and the number of nibbles. |
| Formats.ModBytesIs | muxdb/backend.go:40-51 | The major version within its partition is big-endian, in as many bytes as the factor needs. |
| Formats.HistKeyExample | muxdb/backend.go:26-56 | One key in full. |
| NodeKeys.KeysClashIff | muxdb/backend.go:26-56 | Two nodes of one trie share a key exactly when path and minor version agree and the major versions cannot be told apart under the factor. |
| NodeKeys.ClashWithoutPartitions | muxdb/backend.go:26-56 | Without partitions the first and the last major version share a key. |
| NodeKeys.KeyInRange | muxdb/backend.go:26-78 | A node's key lies in the deleted range exactly when its partition does. |
| NodeKeys.Store.DeleteHistoryNodes | muxdb/backend.go:70-78 | Exactly the history nodes of the partitions in range are gone; all other entries stay as they were. |
| NodeKeys.LimitIsSafe | muxdb/backend.go:70-78 | A node whose major version reaches the limit is never deleted. |
| TrieTree.OneTreePerMap | trie/trie.go:233-414 | Two well-formed trees with the same map are the same tree. |
| TrieTree.Canonical | trie/trie.go:233-414 | Two well-formed trees that look up alike are equal. |
| Rlp.ItemsDelimit | trie/node.go:407-453 | RLP items followed by any bytes are the same if the bytes are the same. |
| Rlp.EncodeIs | trie/node.go:407-453 | A byte below 0x80 is itself; other strings have the header 0x80, lists 0xc0, with lengths below 56 in it and others big-endian behind it. |
| TrieMerkle.RootOfMap | trie/hasher.go:44-86 | The root hash depends only on the map from keys to values, not on the history, the shape or the metadata. |
| TrieMerkle.RootBindsMap | trie/hasher.go:44-86 | Without a collision among the encodings involved, equal roots mean equal maps, and the other way round. |
| TrieRoots.EmptyRoot | trie/trie.go:441-451 | The root of the empty trie is the hash of the byte 0x80. |
| TrieRoots.ChildBytes | trie/hasher.go:44-86 | A child is embedded below 32 bytes, else its hash stands behind 0xa0. |
| TrieRoots.OneChild | trie/node.go:407-425 | The children of a full node follow one another from the first to the one for the terminator. |
| TrieRoots.RootOfOne | trie/node.go:427-445 | For every key and value: the root of the trie with just that is the hash of the list of compact key and value. |
| TrieRoots.RootOfOneExample | trie/node.go:427-445 | The key 0x12 with value 1 hashes c4 82 20 12 01. |
| TrieRoots.RootOfTwoExample | trie/node.go:407-445 | The keys 0x12 and 0x15 with any small values: the hashed bytes in full, a short node over a full node with two leaves. |
| TrieStore.ResolveRep | trie/trie.go:423-437 | A ref of a represented tree always loads, and what it loads stands for the same tree. |
| TrieStore.RepMonotone | trie/trie.go:458-487 | A node still stands for its tree when the database has grown. |
| TrieGet.TryGetCorrect | trie/trie.go:163-205 | Reading never fails on a represented tree, returns what the tree holds for the key, and leaves a node for the same tree. |
| TrieInsert.InsertCorrect | trie/trie.go:233-302 | Insertion gives a well-formed tree with exactly this key changed, dirty exactly if something changed, through any refs. |
| TrieDelete.FindOnly | trie/trie.go:356-366 | The loop finds the only child left, or tells that there are more. |
| TrieDelete.DeleteCorrect | trie/trie.go:307-414 | Deletion gives a well-formed tree with exactly this key gone, joined where a full node has one child left. |
| TrieHasher.ConsensusIsEnc | trie/node.go:407-453 | The consensus encoding of a node with settled children is the Merkle encoding of its tree. |
| TrieHasher.HashNode | trie/hasher.go:44-86 | Hashing yields the hash of the tree, whatever hashes were cached, and fills caches that stay right; short encodings stay embedded unless forced. |
| TrieHasher.StoredLoads | trie/hasher.go:116-160 | A blob written for a node leads back to its tree. |
| TrieHasher.PutNode | trie/hasher.go:116-160 | Writing a node, or leaving it embedded, keeps the tree it stands for. |
| TrieHasher.StoreNode | trie/hasher.go:90-164 | Storing writes only keys of the new version, and what it leaves in memory, refs included, stands for the same tree. |
| Trie.OldRootsSurvive | trie/trie.go:458-487 | Every root that could be opened opens with its own map after the database has grown. |
| Trie.Trie.Open | trie/trie.go:117-126 | A trie opened from a root has the root's map; the zero and the empty root hash open the empty map. |
| Trie.Trie.Get | trie/trie.go:151-161 | Get returns the map's value and metadata for every key and changes nothing. |
| Trie.Trie.Update | trie/trie.go:215-231 | Update sets the key, or removes it for an empty value, and nothing else. |
| Trie.Trie.Hash | trie/trie.go:441-451 | Hash returns the Merkle root of the trie's tree. |
| Trie.Trie.Commit | trie/trie.go:458-487 | After a commit under a new version the map opens at exactly the root hashes that do not stand for an empty trie; an empty map opens as empty; only keys of that version were written. |
| Trie.ZeroHashOpensEmpty | trie/trie.go:117-126 | The all-zero root hash opens as the empty map, and as no other, whatever was committed. |
| Trie.CommittedOpens | trie/trie.go:117-126 | A stored non-empty map opens at its root hash, or at any hash if hashes are not stored, exactly unless the hash stands for an empty trie. |
| TrieRuns.OneHash | trie/hasher.go:44-86 | All hashes of one map are the same, whatever run led to it. |
| TrieRuns.Run | trie/trie.go:99-487 | Over any run of reads, updates, hashes, TTL changes, commits and reopenings of older roots, each answer is that of a plain map, hashes included, and at the end every committed root opens with the map of its moment. |
| BlockTree.NumberBytes | block/header.go:116-132 | The first four bytes of an id are the big-endian block number. |
| Chain.IndexFinds | chain/chain.go:375-386 | The index of a block maps each height to the ancestor at that height and holds nothing above. |
| Chain.IndexBlock | chain/chain.go:375-386 | Indexing a block commits the parent's index with one more entry under a new version. |
| Chain.Repository.constructor | chain/repository.go:72-125 | On an empty store the repository holds the genesis block with its index. |
| Chain.Repository.AddBlock | chain/repository.go:142-240 | A block is added below a known parent with its index, and every older index stays readable. |
| Chain.Repository.GetBlockID | chain/chain.go:91-108 | The index returns the ancestor that parent links lead to, or the error for an unknown head or height. |
| Chain.Repository.HasBlock | chain/chain.go:263-272 | A chain contains exactly its head and the head's ancestors; an unknown head is an error. |
| Chain.Repository.Exclude | chain/chain.go:277-318 | Exclude returns exactly the blocks of one chain above the genesis that are not on the other, ascending, and fails exactly when an unknown head is needed. |
| Chain.CommonGenesis | chain/chain.go:283-287 | With both heads known the genesis is on both chains, so leaving it out loses nothing. |
| StackedMap.ReadIsLast | stackedmap/stackedmap.go:81-119 | Reading a key is reading its last journal entry, or else the source. |
| StackedMap.ReadByIndex | stackedmap/stackedmap.go:81-89 | The revision index leads to the topmost level that holds the key. |
| StackedMap.StackedMap.Push | stackedmap/stackedmap.go:52-55 | A new empty level; the result is the depth before. |
| StackedMap.StackedMap.Pop | stackedmap/stackedmap.go:59-70 | The top level is gone and the index lists exactly the levels left. |
| StackedMap.StackedMap.PopDownTo | stackedmap/stackedmap.go:73-77 | Levels above the depth are gone. |
| StackedMap.StackedMap.Get | stackedmap/stackedmap.go:81-89 | The value of the topmost level that holds the key, or that of the source with its error. |
| StackedMap.StackedMap.Put | stackedmap/stackedmap.go:93-107 | The top level and its journal get the change, and the index stays exact. |
| StackedMap.PutTopReads | stackedmap/stackedmap.go:81-107 | A put changes the read of its key and no other. |
| StackedMap.PopToRestoresIff | stackedmap/stackedmap.go:52-77 | After any operations that never go below a mark, going back to it restores the whole stack exactly when nothing was put at the mark itself. |
| StackedMap.WritesAtTheMarkStay | stackedmap/stackedmap.go:73-77 | A run that comes down to the mark and writes there is not undone. |
| StackedMap.CheckpointRestores | state/state.go:351-358 | Whatever comes of a checkpoint without going below it is undone by going back to it: every level and the journal are those of the checkpoint. |
| StateJournal.SetterKeeps | state/state.go:146-222 | Setters of balance, energy and master keep the invariant of journal, storage roots, barriers and code hashes. |
| StateJournal.StorageKeeps | state/state.go:265-267 | Writing storage behind the current barrier keeps it. |
| StateJournal.CodeKeeps | state/state.go:312-328 | Setting code together with its hash keeps it. |
| StateJournal.DeleteKeeps | state/state.go:342-347 | Deleting an account, which raises its barrier, keeps it. |
| StateJournal.WriteReads | state/state.go:256-267 | A storage write changes the read of its own key and no other read. |
| StateJournal.SetterReads | state/state.go:146-222 | An account write changes the read of its own account and no other read. |
| StateJournal.DeletedReads | state/state.go:342-347 | After Delete the account, its code and all its storage read as empty, and nothing else changes. |
| State.State.GetAccount | state/state.go:129-135 | The account last written in the journal, or the stored one. |
| State.State.GetRawStorage | state/state.go:256-262 | Storage is read behind the current barrier. |
| State.State.GetCode | state/state.go:294-300 | The code last set, or what the code hash leads to, or an error if that is missing. |
| State.State.SetBalance | state/state.go:169-177 | The journal gets the account with the new balance. |
| State.State.SetEnergy | state/state.go:189-197 | The journal gets the account with new energy and block time. |
| State.State.SetMaster | state/state.go:210-222 | The journal gets the account with the new master. |
| State.State.SetRawStorage | state/state.go:265-267 | The journal gets the value under the current barrier. |
| State.State.SetCode | state/state.go:312-328 | The journal gets the code and the account with its hash; empty code clears the hash. |
| State.State.Delete | state/state.go:342-347 | The journal gets empty code, an empty account and a barrier one higher, with the invariant kept. |
| State.State.NewCheckpoint | state/state.go:351-353 | A checkpoint changes no read. |
| State.State.RevertTo | state/state.go:356-358 | The levels above the revision are gone and the invariant holds; StackedMap.CheckpointRestores says that the journal of a checkpoint is back. |
| StateDb.Perform | runtime/statedb/statedb.go:93-218 | A write of the machine has the journal effect of its setter and touches no level below. |
| StateDb.StateDb.Snapshot | runtime/statedb/statedb.go:255-259 | A snapshot remembers the state as it is, under a number that can be gone back to. |
| StateDb.StateDb.RevertToSnapshot | runtime/statedb/statedb.go:262-269 | The state is that of the snapshot, which is closed with all later ones; the panic is never reached for an open snapshot. |
| StateDb.StateDb.Run | runtime/statedb/statedb.go:93-269 | Over any legal run of writes, snapshots and reverts the state is that of the machine on the journal. |
| StateDb.Act | runtime/runtime.go:316-365 | A machine at work leaves the journal its run says and never digs below where the state stood. |
| StateDb.OnlyAdds | runtime/statedb/statedb.go:255-269 | No machine takes back what was written before it started. |
| Stage.NewIDInjective | state/state.go:459-466 | Ids of storage tries made under any versions and counts are distinct. |
| Stage.NewIDBytes | state/state.go:459-466 | An id is the major version big-endian in four bytes, then the minor version and the count. |
| Stage.ReplayEntry | state/state.go:438-477 | One journal entry keeps the collected changes in step with the live reads, and ids apart. |
| Stage.ReplayJournal | state/state.go:436-480 | After the walk every account's data, storage and base trie are those of the live state. |
| Stage.SaveStorage | state/account.go:128-134 | Written in any order, the trie reads the new value for each collected key and the old one for others; empty removes. |
| Stage.SaveChanged | state/state.go:485-517 | A saved account reads as the live one; an empty account leaves nothing; metadata is kept exactly with a root. |
| Stage.SaveAll | state/state.go:482-517 | In whatever order accounts are written, all of them end in their saved form. |
| Stage.SavedWorldOk | state/state.go:406-520 | No two accounts of the staged state share a storage trie id, and empty accounts are gone. |
| Stage.AccountSurvives | state/account.go:36-41 | Nothing an account holds is lost by staging, and exactly the accounts that hold something are stored. |
| Stage.CodeReadsBack | state/state.go:446-450 | Without hash collisions each account's code reads as in the live state. |
| Stage.Stage | state/state.go:406-546 | A state opened on the staged one reads every account, storage key and code as the live state does, deletions and recreations included; balance, energy, master and code hash survive for every address, and exactly the accounts with one of them are stored. |
| Stage.StorageSurvivesIff | state/state.go:485-513 | Storage reads survive staging unless the account has storage but no balance, energy, master or code. |
| Stage.StorageOfEmptyAccount | state/state.go:265-267 | Such an account arises from any empty account by one write. |
| Justifier.AddVote | bft/justifier.go:70-83 | One more vote changes the tally and the COM voters as a set of votes says, so the order of votes is irrelevant. |
| Justifier.Justifier.AddBlock | bft/justifier.go:70-83 | The votes map is the tally of all votes so far, and the counter is the number of signers who only voted COM. |
| Justifier.Justifier.Summarize | bft/justifier.go:86-101 | Justified and committed say that voters and COM voters exceed the threshold; quality rises with justification. |
| Justifier.CommittedIsJustified | bft/justifier.go:86-101 | Committed implies justified. |
| Justifier.QuorumOverlap | bft/justifier.go:48-101 | Two committed vote sets of at most n proposers with the threshold n*2/3 share more than a third of n as COM voters of both. |
| Finality.BallotsAreTheRound | bft/engine.go:316-334 | The votes of a block are those of its chain from the round's checkpoint, or the finality fork, up to it. |
| Finality.QualityStep | bft/justifier.go:50-101 | From one round to the next quality never falls and rises by at most one. |
| Finality.QualityMonotone | bft/justifier.go:50-101 | Along a chain quality never falls. |
| Finality.QualityReached | bft/engine.go:344-392 | Every quality between those of two rounds is the quality of some round between them. |
| Finality.CommittedFollows | bft/justifier.go:86-101 | The round before a committed one has the quality just below. |
| Finality.CommittedOverlap | bft/justifier.go:29-101 | Two committed rounds on any branches, over no more proposers than the block limit allows, share more than a third of that limit. |
| FinalityRule.RoundRule | bft/justifier.go:48-101 | Justified and committed in plain terms: more than two thirds of the limit, 101 or a smaller one set before the round, signed a block of the round, or signed with COM and never without. |
| FinalityRule.QualityCounts | bft/justifier.go:29-101 | The quality of a round is the number of justified rounds on its chain since the finality fork. |
| FinalityRule.FiresIff | bft/engine.go:168-181 | A block finalizes exactly when it ends a round, two thirds of the limit signed with COM, and the chain has two justified rounds. |
| FinalityRule.FinalizesLastJustified | bft/engine.go:180-193 | What becomes final is the checkpoint of the last justified round before the committing one, or the start of the search if none was justified since. |
| Engine.SavedBelow | bft/engine.go:168-178 | If a round's last block is saved, so are those of all rounds before it on its chain. |
| Engine.Engine.constructor | bft/engine.go:57-81 | An engine starts from the stored qualities and the stored finalized block, or genesis, with empty caches. |
| Engine.Engine.GetQuality | bft/engine.go:408-425 | The saved quality, or zero, whatever the cache holds. |
| Engine.Engine.NewJustifier | bft/justifier.go:29-67 | A new vote set has the threshold and the parent quality of the block's round. |
| Engine.Engine.TakeJustifier | bft/engine.go:298-314 | The parent's vote set is taken away from the parent; otherwise a new one is made. |
| Engine.Engine.CountVotes | bft/engine.go:316-334 | The walk ends with exactly the votes of the round up to the block. |
| Engine.Engine.ComputeState | bft/engine.go:289-340 | Whatever was evicted and whatever forks were seen, the state is that of a full recount. |
| Engine.Engine.FindCheckpointByQuality | bft/engine.go:344-392 | The search succeeds exactly when the target lies between the qualities at both ends, and returns the earliest checkpoint in range with exactly that quality. |
| Engine.Engine.Accepts | bft/engine.go:137-145 | True exactly for parents whose chain contains the finalized block, or when only genesis is final. |
| Engine.CommitSearch | bft/engine.go:180-184 | On an accepted chain the search of a commit succeeds exactly when the finalized checkpoint lies before the committing round. |
| Engine.CommitFinds | bft/engine.go:180-193 | What the search finds is a checkpoint on the committing chain, a descendant of the finalized one or itself, before the committing round. |
| Engine.Engine.CommitBlock | bft/engine.go:168-193 | The last block of a round saves its quality; a committed round moves finality forward on its chain, or fails in exactly one case. |
| EngineRuns.Run | bft/engine.go:57-340 | Over any run with forks, evictions and restarts, step by step: a ready block is answered with its recount and no other, a ready and accepted one saves its quality and finalizes exactly when its round commits and finality lies before it, and nothing else changes; finality only moves to descendants. |
| EngineFork.FailingCommit | bft/engine.go:168-193 | Finality has reached the second round when a second last block of that round comes: its commit fails. |
| EngineFork.ForkExists | bft/engine.go:168-193 | There is such a tree of three rounds with a fork at the end of the second, all voting COM. |
| Scheduler.OneOrder | poa/sched_v2.go:67-74 | However the list is sorted, without hash ties there is one result. |
| Scheduler.NewSchedulerV2 | poa/sched_v2.go:30-81 | Exactly listed proposers get a scheduler; its order is the sorted list of active proposers and the own one. |
| Scheduler.ListedAre | poa/sched_v2.go:40-61 | A scheduler takes into account everybody who is active and its own proposer. |
| Scheduler.Scheduler.Schedule | poa/sched_v2.go:85-104 | The least time from now on, after the parent, that is the proposer's turn; the panic is never reached. |
| Scheduler.SlotOf | poa/sched_v2.go:112-126 | A time is scheduled for someone exactly when it is a slot of theirs. |
| Scheduler.Scheduler.Updates | poa/sched_v2.go:129-149 | Those whose slots passed turn inactive, the proposer turns active, and the score counts the others, at least one. |
| Scheduler.ChangesAre | poa/sched_v2.go:129-149 | By the schedule: exactly those other than the proposer with a slot of the first turn before the new block turn inactive, and only the proposer turns active, if it was not. |
| Scheduler.ScoreIs | poa/sched_v2.go:129-149 | The score is the number of slots in a turn less those before the new block that are not the proposer's. |
| Scheduler.OrderIs | poa/sched_v2.go:67-74 | Where the hashes of two proposers first differ, the earlier one has the smaller byte. |
| Scheduler.SameOrder | poa/sched_v2.go:30-81 | Any two active proposers build the same order. |
| Scheduler.OneTurnPerSlot | poa/sched_v2.go:30-126 | Every slot belongs to exactly one active proposer, in the view of all of them. |
| Scheduler.OneScheduler | poa/sched_v2.go:30-81 | Packer and validator make the same scheduler for the same proposer. |
| GasLimit.QualifyIsClosest | block/gas_limit.go:18-69 | The qualified limit is valid, and no valid limit is closer to the target. |
| GasLimit.IsValidIff | block/gas_limit.go:18-30 | Valid limits are those from a million on that differ from the parent's by at most a 1024th of it. |
| GasLimit.PackerLimitIs | packer/packer.go:172-177 | Without a target the limit stays; with one it is the valid limit closest to it. |
| GasLimit.PackerLimitValidIff | packer/packer.go:172-177 | The packer's limit is valid for every target exactly when the parent's reaches the minimum. |
| Packer.Schedule | packer/packer.go:52-138 | A listed proposer, and no other, gets a flow in its own slot, with the score and the state updates of the schedule and the packer's gas limit. |
| Packer.Flow.Adopt | packer/flow.go:93-152 | A transaction is adopted exactly when it is packable, fits and runs; otherwise every level of the state and the whole flow are as they were, and the refusal tells which check failed. The flow is always the run of its adopted transactions and stays within the gas limit. |
| Packer.Flow.Try | packer/flow.go:140-146 | An error, whatever it left behind, is undone by going back to the checkpoint. |
| Packer.GasBounded | runtime/runtime.go:469-474 | No transaction uses more gas than it brings. |
| Packer.Flow.Pack | packer/flow.go:155-181 | The header tells the context, the adopted transactions, their gas and receipts, and the root of the state. |
| Packer.GasCheckIff | packer/flow.go:110-117 | The check bounds what a transaction may use exactly when the sum does not wrap around. |
| Packer.GasCheckWraps | packer/flow.go:110-117 | It can wrap around. |
| Validator.ValidateBlockHeader | consensus/validator.go:94-117 | Accepts exactly headers with an aligned later time not in the future, valid gas limit, gas used within it, a higher score. |
| Validator.ValidateBlockBody | consensus/validator.go:223-255 | Accepts exactly bodies all of whose transactions a packer could have taken. |
| Validator.RunTxs | consensus/validator.go:301-332 | On the state: the run of the transactions in order, refused exactly for known ones, broken or reverted dependencies, and errors. |
| Validator.Validate | consensus/validator.go:24-46 | Accepts exactly the blocks that are acceptable on their parent. |
| Validator.PackedIsAcceptable | consensus/validator.go:94-356 | What a flow packs is acceptable exactly for clocks at most an interval behind. |
| Validator.PackThenValidate | packer/flow.go:93-181 | From scheduling to packing: the header packs, in order, exactly the candidates that are adoptable after those before them, in the master's slot, and tells what their run does; it is acceptable to a node with the same proposers, and that node's validation accepts it, exactly when its clock is at most an interval behind. |
| Validator.AdoptTxs | packer/flow.go:93-152 | Offering candidates one by one packs exactly those that are adoptable after the ones before. |
| BlockRules.HeaderOkIff | consensus/validator.go:94-117 | The header checks in numbers: a multiple of ten seconds after the parent and at most ten ahead, the gas limit, the score, COM only from the finality fork on. |
| BlockRules.PackableIff | packer/flow.go:94-110 | A block may hold a transaction exactly within its window of heights, on its chain, with known features, from an origin that is not blocked. |
| BlockRules.RunLeavesTrace | consensus/validator.go:301-332 | In every run each transaction runs on what the ones before left, ids are new and distinct, dependencies are met and not reverted, and gas is the sum of the receipts in 64 bits. |
| BlockRules.TraceRuns | consensus/validator.go:301-332 | Conversely, transactions with such a trace run, to exactly what it says. |
| BlockRules.AcceptedIsSound | consensus/validator.go:24-356 | An acceptable block part by part: features, header numbers, the signer's slot, the score of the schedule, and the trace of its transactions with gas, receipts and state root. |
| BlockRules.SoundIsAccepted | consensus/validator.go:24-356 | Conversely, a block with all these parts is acceptable. |
| Ledger.Books.AddReads | builtin/energy/energy.go:110-129 | Energy at the block's time and the total added rise by the amount; no other account, code or storage changes. |
| Ledger.Books.SubReads | builtin/energy/energy.go:133-158 | Energy at the block's time falls and the total subtracted rises by the amount; no other account, code or storage changes. |
| Ledger.EnergyGrows | state/account.go:47-65 | Energy grows by 5 * 10^9 a second for every 10^18 of balance, rounded down, and not before the account was touched. |
| Ledger.Books.CanPayIff | builtin/energy/energy.go:133-158 | An account can pay exactly what leaves it no debt. |
| Ledger.AddEnergy | builtin/energy/energy.go:110-129 | The steps on the state have that effect on the journal. |
| Ledger.SubEnergy | builtin/energy/energy.go:133-158 | False exactly when the energy does not suffice, with nothing changed; else charged. |
| Ledger.Books.CreditReads | builtin/prototype/prototype.go:108-133 | A credit that is set reads back, up to the plan's credit; no other user, plan or energy changes. |
| Ledger.CreditRecovers | builtin/prototype/types.go:30-52 | Of the used credit what has recovered counts no more; the rest is missing from the plan's credit. |
| Ledger.Books.CreditOfUsers | builtin/prototype/prototype.go:99-121 | Nobody has credit who is no user; a user who has used nothing has all the plan gives. |
| Ledger.SetCredit | builtin/prototype/prototype.go:123-133 | The steps on the state have that effect on the journal. |
| Ledger.Books.CreditApart | builtin/prototype/prototype.go:35-89 | Booking energy changes no credit. |
| Runtime.ResolveTransaction | runtime/resolved_tx.go:30-69 | Accepts exactly transactions whose gas covers the intrinsic gas, without negative values, and whose values together fit 256 bits. |
| Runtime.ResolvableIff | runtime/resolved_tx.go:46-60 | That is, every sum on the way is at least the one before and fits 256 bits. |
| Runtime.CommonTo | runtime/resolved_tx.go:72-92 | The one receiver of all clauses, if there is one. |
| Runtime.BuyGas | runtime/resolved_tx.go:95-194 | Fails exactly when nobody can pay, with nothing changed; otherwise the payer is charged for all the gas at the price of the moment. |
| Runtime.BuyMeans | runtime/resolved_tx.go:95-194 | Gas is bought exactly when somebody pays: the delegator or nobody, else by credit the sponsor or the receiver, else the origin. |
| Runtime.PriceIs | tx/transaction.go:340-347 | The price is the base price and up to as much again by the coefficient, in 255ths rounded down. |
| Runtime.OverallIs | tx/transaction.go:373-394 | Proved work raises the price by its share in the transaction's gas, at most by the base price. |
| Runtime.GasAfter | runtime/runtime.go:438-445 | The refund is the whole counter, or as much of it as half of what the clause used allows, no more and no less. |
| Runtime.Executor.Next | runtime/runtime.go:422-459 | A clause runs on the gas left, with a refund of at most half of what it used; a failure goes back to the checkpoint, and the state is then that of the purchase. |
| Runtime.Executor.Undo | runtime/runtime.go:446-456 | Going back to the checkpoint restores every level of the state after the purchase. |
| Runtime.RanIs | runtime/runtime.go:408-459 | Outputs are one for each clause or none, gas does not grow, the purchase stays in the journal, and a failure leaves only the purchase. |
| Clauses.ClausesExplained | runtime/runtime.go:408-459 | Clauses run in order, each with its index on the state and the gas the ones before left, from the gas beyond the intrinsic gas, until one fails, which leaves the purchase, or breaks down. |
| Runtime.Executor.Finalize | runtime/runtime.go:461-504 | Only once and only at the end: the receipt, the energy returned, the credit charged, the reward; an error in between keeps what was returned. |
| Runtime.ExecuteTransaction | runtime/runtime.go:376-506 | Receipt and state are those of the transaction on the journal, for errors too, and nothing below where the state stood is dug into. |
| Fees.ReceiptIff | runtime/runtime.go:376-506 | There is a receipt exactly when the transaction resolves, somebody pays, its block reference is found both times and no clause breaks the machine down. |
| Fees.ReceiptIs | runtime/runtime.go:461-504 | Gas used lies between the intrinsic gas and the gas brought; paid is its price; the reward is gas used times overall gas price times reward ratio over 10^18; a failure has no outputs. |
| Fees.ReceiptInNumbers | runtime/runtime.go:461-504 | Price, payment and reward as numbers, rounded down where they are divided. |
| Fees.SettlementMoves | runtime/runtime.go:461-504 | The purchase takes the price of all gas from the payer; settling returns the unused part and pays the reward, and no other energy, plan or user changes but the credit drawn on. |
| Fees.ErrorLeavesStateIff | runtime/runtime.go:376-412 | An error leaves the state as it was exactly when it comes before gas that costs something is bought. |
| Fees.ErrorAfterPurchase | runtime/runtime.go:397-405 | A transaction whose block reference is not found leaves its payer charged for all the gas. |
| Fees.EnergyConserved | runtime/runtime.go:461-504 | What was prepaid is paid or returned, and what is burned is what was paid less the reward. |
| Fees.FailureCostsOnlyGas | runtime/runtime.go:446-504 | A failed transaction costs its payer exactly what it paid; every other account, code, storage slot, plan and user is as before, but for the reward, the totals and the credit drawn on. |
| Fees.CreditDropsByPaid | runtime/resolved_tx.go:141-150 | The credit drawn on drops by exactly what was paid, if and only if the plan after the clauses still covers it; always after a failure. |
| Fees.CreditNeedNotDrop | runtime/resolved_tx.go:141-150 | A clause that lowers the plan, with concrete block, state and transaction: the credit does not drop by what was paid. |
| CodeBitmap.DestsAreStarts | vm/contract.go:149-161 | The jump destinations of the scan are the JUMPDEST bytes at instruction starts. |
| CodeBitmap.StartsFollow | vm/analysis.go:96-139 | An instruction starts after each instruction and its data and none within data; 0x60 to 0x7f have 1 to 32 bytes of data. |
| CodeBitmap.DestIs | vm/contract.go:149-161 | A destination is a byte 0x5b where an instruction starts. |
| CodeBitmap.Set1 | vm/analysis.go:54-56 | Sets one bit. |
| CodeBitmap.SetN | vm/analysis.go:58-64 | Sets two to seven bits, across a byte border if need be, and no others. |
| CodeBitmap.Set8 | vm/analysis.go:66-70 | Sets eight bits and no others. |
| CodeBitmap.Set16 | vm/analysis.go:72-77 | Sets sixteen bits and no others. |
| CodeBitmap.MarkData | vm/analysis.go:103-136 | Marks exactly the data bytes of one PUSH. |
| CodeBitmap.Analyze | vm/analysis.go:85-139 | For every code, a position inside it is a code segment exactly when the scan meets an instruction there; no write leaves the vector. |
| CodeBitmap.BitmapCache.Get | vm/analysis.go:29-38 | A cached bitmap is that of the code, if hashes of codes do not collide. |
| CodeBitmap.Contract.IsCode | vm/contract.go:165-187 | With a stashed, cached or new analysis, true exactly at instruction starts. |
| CodeBitmap.Contract.ValidJumpdest | vm/contract.go:149-161 | Accepts exactly the jump destinations of the scan. |

## Left out

- Trie.Trie.Commit: asks for sizes the storage format can hold, because the code narrows the length of a compact key to 32 bits.
- Trie.Trie.Commit: a trie without hashes must be committed without hashes, see the conditions above.
- Chain.Repository.constructor: opens an empty store only, not a stored chain, and assumes that the placeholder hash of index roots is not the hash of the empty trie.
- Chain.Repository.AddBlock: asks for a new block one above its parent, under a conflict count that is not used at its height, as the node provides.
- State.State.RevertTo: says nothing of writes after revision 0, below which there is no level to write to; NewCheckpoint starts at 1.
- CodeBitmap.BitmapCache.Get: asks that the code hash given is that of the code.
- TrieHasher.HashNode: works on values; that the program writes cached hashes into shared nodes in place is not modelled.
- Engine.Engine.ComputeState: asks that the rounds a block builds on were committed first; the node commits blocks in that order.
- Engine.Engine.CommitBlock: leaves out the marking of own votes when packing (bft/engine.go:195-207).
- Scheduler.Scheduler.Schedule: times near 2^64, where the sums wrap around, are not modelled.
- Stage.Stage: tries are maps, so storage versions and the root hash are left out; journals of 2^64 entries are not modelled, and the version must be new to the state.
- Stage.SaveChanged: of the metadata only the storage id is modelled, not the storage version numbers or the byte layout of accounts.
- Stage.SaveStorage: works on the map of a storage trie, without the key preimages kept as metadata.
- NodeKeys.Store.DeleteHistoryNodes: with the factor 2^32 - 1 and the largest limit it says only which byte range of keys is gone, not which nodes.
- StateDb.StateDb.RevertToSnapshot: only for open snapshots, each gone back to once, as the virtual machine does; refund counter, logs and preimages of the snapshot map are not modelled.
- Runtime.ResolveTransaction: origin, delegator and intrinsic gas are inputs, with a flag that they could be worked out; signatures are not modelled.
- Runtime.ExecuteTransaction: base gas price, reward ratio and sponsors are functions of the journal, proved work is an input; errors of the database and of decoding builtin storage are left out.
- Packer.Schedule: times and scores near 2^64, where sums wrap around, are not modelled; the seed and VRF are part of the given order.
- Packer.Flow.Pack: building, signing and the key check are left out; roots of transactions and receipts are the lists.
- Validator.PackThenValidate: asks that the gas of each candidate leaves room in 64 bits beside the gas limit, see the conditions above.
- Validator.ValidateBlockHeader: signature, alpha and VRF checks are left out.
- Validator.Validate: signature and VRF checks and the corrections of historic receipt roots are left out; the two-way statement needs proposers without duplicates and hash ties.
- CodeBitmap.Contract.ValidJumpdest: code longer than 64-bit lengths is not modelled.
- ShouldVote, the vote marks of a node and the cached justified checkpoint: they need assumptions about all proposers that the code does not state.
- Safety across rounds with dishonest proposers: the quorum overlap is its combinatorial core, the rest is a network argument.
- SchedulerV1: its search ends only depending on hash values.
- BuildStorageTrie and storage iteration: they would repeat the statements about staging.
- Trie iteration, version filters, root loading from nodes, deduplicated node keys and the node cache of muxdb: easy members or I/O.
- Transaction lookups of the chain, receipts, blooms and logs: data tables.
- The virtual machine's instructions, native contracts other than energy and credit, gas schedules: parameters here.
- Locks, atomics, metrics, network, API, transaction pool.
