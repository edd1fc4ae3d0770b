# Verified model of the MonadDB metadata and trie core

A Dafny 4.11 model of the parts of MonadDB where a mistake loses data or changes
a root hash, with machine-checked proofs. `dafny verify dfyconfig.toml` checks
the whole project.

**Metadata and crash recovery.** Two redundant metadata headers sit over two
rings of root offsets. `RingPool` and `RingLayout` keep the physical chunk
halves as the store and treat ring spans as views of them, so the secondary
span and the former tail of the primary share their bytes. Every store is one
step; a crash keeps a prefix of the stores. `IntentLog` has dirty scopes,
healing (a whole-header copy, never ring data) and replay; `ProtectedOp`
classifies every crash point of any operation run under the intent record.
`ShrinkGrow` and `ActivateBodyFacts` describe the stores of the shrink and grow
bodies; `ActivateCrash`, `ActivateLookups`, `Deactivate` and `Promote` prove
what recovery leaves. `RingContext` holds the same operations as a class whose
fields are changed in place; its methods issue exactly the stores the theorems
quantify over. `ChunkLists` follows the chunk lists over whole runs,
`RootOffsets` and `RootOffsetsRing` treat the ring itself, and
`MetadataMigration` the MONAD007 to MONAD008 migration, in place and byte by
byte.

**The Merkle Patricia trie.** `YellowPaper` states Appendices B, C and D of the
Ethereum Yellow Paper; `MerkleCompute`, `ChildEncoding` and `ComputeObjects`
prove that the incremental computation agrees with them. `RlpCodec` and
`CompactEncoding` prove the two encodings and their decoders exact inverses.
`NodeLayout`, `MakeNode` and `NodeSerialize` treat the flat node, how it is
built from a span of children, and its round trip through the disk buffers.
`TrieLookup` proves the three lookups equal; `ReadCoalescing` treats the
asynchronous lookup that shares reads, `ReadAnswers` and `ReadExpiry` what it
answers and `ReadProgress` that it does. `CopyTrie` is grafting on values.
`NodeStore` has node objects in memory that point to each other and to the disk,
and `CopyDescent`, `CopyClimb` and `CopyTrieOnDisk` prove that the in-place copy
on them is that graft.

**The page commitment and the statistics file.** `PageCommit`, on the integer
bitmaps of `Bitmap`, proves the bitmap-driven merge equal to a recursive sparse
Merkle tree and the commitment binding. `StatsSeqlock` treats the sequence lock
with one writer, many readers, writer death and takeover, and when reads
succeed or give up.

## Where the code does not do what its text says

- Activate: a comment says the sources of the move are never written. The fill
  that follows writes those same slots. A crash of copy 0 between the first fill
  store and the end of its dirty scope rolls its header back, and replay repeats
  the move from filled slots. `ActivateLookups.KeptLookupSurvivesIff` says
  exactly which lookups are lost.
- Activate: a crash between the two scopes that store the history length leaves
  the two headers with different history lengths
  (`ActivateCrash.HeadersAfterCrash`).
- Activate: where the history has to shrink, `update_history_length_metadata`
  asserts that the new capacity is at least the minimum history length of 300;
  the precondition `CanActivate` carries this assertion.
- Ring: the lower bound is not always a version with a root or the maximum
  version; two empty pushes break it (`RootOffsets.TwoEmptyPushesAreLoose`,
  exact condition over whole runs in `RootOffsets.LowerBoundOfRun`).
- Ring: a push into a full window overwrites the lowest version
  (`RootOffsets.PushKeepsLookupsIff`).
- `update_root_offset` tests emptiness through copy 0 in both passes, so erasing
  the only version makes the copies differ (`RootOffsetsRing.UpdateAgreesIff`,
  `RootOffsetsRing.CopiesMeetAgain`).
- Repair inspects ring B whatever its role. It would reset a live primary ring
  B with a zero slot; no run from a new pool has one
  (`ChunkLists.RepairSparesPrimaryIff`, `ChunkLists.ChunksAreNeverLost`).
- `copy_trie`: the children of the source are moved to the new node, and only the
  last parent gets its pointer back. When the source lies on the way to the
  destination above the last parent, the loop that writes the insertion path
  dereferences a null pointer. `CopyTrieOnDisk.TrieStore.CopyTrieImpl` has the
  exact condition, `CopyTrieOnDisk.CopyOntoOwnPath` an input.
- `copy_trie` into a root that is split or gets a new branch gives that root the
  value of the source root, under the root's own key
  (`CopyTrieOnDisk.TrieStore.CopyTrieImpl`).
- `rewind_to_version` on an empty ring aborts, or loops forever when the version
  lies within the capacity of 2^64 - 1 (`RootOffsets.RewindReturnsIff`). Its
  caller in `update_aux.cpp` never rewinds an empty ring.
- A root with a value of its own and a single child: the root data leaves the
  root's own entry out (`MerkleCompute.RootIsTrieRoot`).
- A stored node size of one to three bytes passes the assertions and wraps
  around when the four size bytes are taken off
  (`NodeSerialize.DeserializeNode`).
- Statistics file: the 32-bit sequence number can wrap around within one read
  attempt; the bound of 2^31 writes is tight
  (`StatsSeqlock.TornAfterWrapAround`, `StatsSeqlock.TornReadHappens`).

## Model

| member | source | states |
|---|---|---|
| `ProtectedOp.CrashAnywhere` | category/mpt/db_metadata_context.cpp:941-1148 | for every crash point of a protected operation (stamp, body, clear, each on both copies inside a dirty scope) the healed pool is one of a short list of stages, and the crash point tells which one |
| `ProtectedOp.AtomicOutside` | category/mpt/db_metadata_context.cpp:941-1148 | if replay from every healed stage gives the finished copy 0, then every crash point outside a given span recovers to exactly the start (before the intent record is on disk) or the end |
| `PowerOfTwo.SlotIsRemainder` | category/mpt/db_metadata_context.hpp:139 | masking a version with a power-of-two capacity minus one is the remainder by that capacity, for every version |
| `ActivateCrash.HeadersAfterCrash` | category/mpt/db_metadata_context.cpp:1150-1376 | after a crash at any store of an activate, replay is accepted, copy 0 has the starting or the finished header, no intent record is left, and the two headers agree except at one exactly named store, between the two history-length scopes |
| `ActivateCrash.CrashOutsideFillWindow` | category/mpt/db_metadata_context.cpp:1150-1376 | outside the fill window every crash point recovers copy 0, header and ring data, to the exact starting or the exact finished state |
| `ActivateLookups.ActivateKeepsLookups` | category/mpt/db_metadata_context.cpp:1197-1257 | an uninterrupted activate of a ring of 2n chunks with e entries each keeps the root offset of version v exactly if lower bound <= v < next version <= v + n * e, and makes every other version empty |
| `ActivateLookups.SecondaryStartsEmpty` | category/mpt/db_metadata_context.cpp:1297-1320 | after an activate every slot of the new secondary ring is empty, although its chunks were the tail of the primary |
| `ActivateLookups.ActivateLeaves` | category/mpt/db_metadata_context.cpp:1150-1376 | every header field that an activate leaves in either copy, in numbers: both lengths half the old one, the lower bound raised by no more than the smaller capacity demands, the history clamped to it, and every slot of both chunk lists |
| `ActivateLookups.CrashInFillWindow` | category/mpt/db_metadata_context.cpp:1238-1310 | a crash inside the fill window loses exactly those versions, of the ones that fit into the smaller ring, whose source slot had already been filled |
| `ActivateLookups.KeptLookupSurvivesIff` | category/mpt/db_metadata_context.cpp:941-1376 | for every crash point and every version with lower bound <= v < next version <= v + n * e: the recovered lookup is empty where the source slot had been filled inside the window, and the old root in every other case |
| `ActivateLookups.FillWindowLosesAVersion` | category/mpt/db_metadata_context.cpp:1238-1310 | a concrete pool and crash point where a kept version is lost, so the comment that move sources are never written is not enough |
| `Deactivate.DeactivateIsAtomic` | category/mpt/db_metadata_context.cpp:1378-1558 | a crash at any store of a deactivate recovers copy 0 to the exact starting or finished state, with agreeing headers and no intent record |
| `Deactivate.DeactivateKeepsLookups` | category/mpt/db_metadata_context.cpp:1462-1499 | an uninterrupted deactivate changes no lookup of any version, although the moved entries change position |
| `Deactivate.DeactivateCrashKeepsLookups` | category/mpt/db_metadata_context.cpp:1378-1558 | no crash point of a deactivate changes any lookup of the primary ring |
| `Deactivate.ChunksReturnInOrder` | category/mpt/db_metadata_context.cpp:1281-1296 | activate followed by deactivate restores the chunk list of both rings, in order |
| `Deactivate.DeactivateLeaves` | category/mpt/db_metadata_context.cpp:1378-1558 | every header field that a deactivate leaves in either copy: the primary has the sum of the lengths, its own chunks and then those of the secondary, unchanged version bounds; the secondary has length zero and the null chunk in the slots it used |
| `RingLayout.LookupReads` | category/mpt/db_metadata_context.hpp:156-162 | a lookup of version v between the bounds reads entry v mod capacity: chunk (v mod capacity) / e of the list, position v mod capacity mod e in it |
| `Promote.PromoteIsAtomic` | category/mpt/db_metadata_context.cpp:1560-1601 | after any number of crashes, in the promote or in any of the replays, an open leaves both headers equal, with the old or the target ring index, no intent record and untouched ring data |
| `Promote.PromoteSwitches` | category/mpt/db_metadata_context.cpp:1560-1601 | a promote that completes changes the ring index of both copies and nothing else |
| `Promote.InvAfterCrashes` | category/mpt/db_metadata_context.cpp:941-1016 | the invariant that makes replay of a promote safe survives every sequence of crashes |
| `RingContext.DbMetadataContext.MoveEntries` | category/mpt/db_metadata_context.cpp:1238-1257 | the in-place loop issues the stores that copy every version from its original slot, although earlier iterations already wrote the ring |
| `RingContext.DbMetadataContext.FillEntries` | category/mpt/db_metadata_context.cpp:1310 | the fill writes an empty offset to every slot of the span in ascending order |
| `RingContext.DbMetadataContext.TransferChunks` | category/mpt/db_metadata_context.cpp:1281-1296 | the resumable loop hands over exactly the chunks not yet handed over |
| `RingContext.DbMetadataContext.RaiseLowerBound` | category/mpt/db_metadata_context.cpp:1197-1209 | stores the new bound only where it is higher than the stored one |
| `RingContext.DbMetadataContext.MoveKept` | category/mpt/db_metadata_context.cpp:1210-1257 | moves happen only on a ring that was not yet shrunk, reading tail chunks through whichever list still names them |
| `RingContext.DbMetadataContext.ShrinkCopy` | category/mpt/db_metadata_context.cpp:1159-1321 | the activate body on one copy issues, in its dirty scope, the stores the crash theorems quantify over |
| `RingContext.DbMetadataContext.GrowCopy` | category/mpt/db_metadata_context.cpp:1387-1509 | the deactivate body on one copy issues, in its dirty scope, the stores the crash theorems quantify over |
| `RingContext.DbMetadataContext.SpreadPrimary` | category/mpt/db_metadata_context.cpp:1462-1499 | the tail is cleared and then filled from the original head slots, and only on a ring not yet grown |
| `RingContext.DbMetadataContext.SetPendingShrinkGrow` | category/mpt/db_metadata_context.cpp:1119-1138 | the intent record is stored on each copy in its own dirty scope, copy 0 first |
| `RingContext.DbMetadataContext.ClearPendingShrinkGrow` | category/mpt/db_metadata_context.cpp:1140-1148 | the intent record is cleared on each copy in its own dirty scope, copy 0 first |
| `RingContext.DbMetadataContext.DoActivateSecondaryBody` | category/mpt/db_metadata_context.cpp:1150-1326 | both copies in turn, then the two history-length scopes when the history no longer fits |
| `RingContext.DbMetadataContext.DoDeactivateSecondaryBody` | category/mpt/db_metadata_context.cpp:1378-1510 | both copies in turn |
| `RingContext.DbMetadataContext.DoPromoteSecondaryToPrimaryBody` | category/mpt/db_metadata_context.cpp:1560-1573 | the ring index is stored on each copy in its own dirty scope |
| `RingContext.DbMetadataContext.ActivateSecondaryHeader` | category/mpt/db_metadata_context.cpp:1328-1376 | the executed store sequence is exactly the one whose every prefix the activate crash theorems treat |
| `RingContext.DbMetadataContext.DeactivateSecondaryHeader` | category/mpt/db_metadata_context.cpp:1512-1558 | the executed store sequence is exactly the one whose every prefix the deactivate crash theorems treat |
| `RingContext.DbMetadataContext.PromoteSecondaryToPrimaryHeader` | category/mpt/db_metadata_context.cpp:1575-1601 | the executed store sequence is exactly the one whose every prefix the promote crash theorems treat |
| `RingContext.DbMetadataContext.HealDirtyCopies` | category/mpt/db_metadata_context.cpp:347-364 | a dirty header is replaced by the other copy's header; ring data stays as it is |
| `RingContext.DbMetadataContext.ReplayPendingShrinkGrow` | category/mpt/db_metadata_context.cpp:941-1016 | replay runs the recorded body and clears the record on both copies, whichever copy carries it |
| `RingContext.DbMetadataContext.Open` | category/mpt/db_metadata_context.cpp:347-387 | opening a crashed pool leaves the state the recovery function gives, on which all crash theorems are stated |
| `RingContext.ActivateCrashReplays` | category/mpt/db_metadata_context.cpp:1150-1195 | after a crash at any store of an activate the assertions of the replayed body hold |
| `RingContext.DeactivateCrashReplays` | category/mpt/db_metadata_context.cpp:1378-1423 | after a crash at any store of a deactivate the assertions of the replayed body hold |
| `ChunkLists.ChunksAreNeverLost` | category/mpt/db_metadata_context.cpp:410-448 | over every crash-free run of activate, promote, deactivate and repair from a new pool, with any root offset writes to either copy in between, the two live chunk lists together are a duplicate-free list of exactly 1..ring_total, their lengths are powers of two, equal when both are active and zero for an inactive secondary, and repair finds nothing to do |
| `ChunkLists.RunKeepsInv` | category/mpt/db_metadata_context.cpp:1284-1508 | the list invariant is kept by every run from any state that satisfies it |
| `ChunkLists.ActivateIsPossible` | category/mpt/db_metadata_context.cpp:1328-1360 | in a reachable pool whose copies agree the assertions of activate are all it needs: they hold if and only if the crash theorems apply |
| `ChunkLists.DeactivateIsPossible` | category/mpt/db_metadata_context.cpp:1512-1540 | in a reachable pool deactivate is accepted if and only if the secondary is active, and if the copies agree the crash theorems apply |
| `ChunkLists.RepairDoesNothing` | category/mpt/db_metadata_context.cpp:798-842 | repair leaves every reachable pool alone, whichever ring is primary |
| `ChunkLists.RepairSparesPrimaryIff` | category/mpt/db_metadata_context.cpp:798-842 | on an arbitrary pool repair spares the live primary ring if and only if a secondary is active, ring A is primary, or ring B has no zero slot in either copy |
| `ChunkLists.RepairLeaves` | category/mpt/db_metadata_context.cpp:798-842 | repair acts exactly if no secondary is active and some slot of ring B is zero in either copy; then ring B of both copies has length zero and the null chunk in every slot, everything else is as it was, and no repair is needed any more; otherwise nothing changes |
| `RootOffsets.RingIsAMap` | category/mpt/db_metadata_context.hpp:84-203 | every run of pushes, assigns, resets and rewinds from an empty ring gives the lookups of a plain version map, and no version with a root lies below the lower bound |
| `RootOffsets.RunRefines` | category/mpt/db_metadata_context.hpp:84-203 | refinement of the map is kept along every allowed run, from any refining state |
| `RootOffsets.PushRefines` | category/mpt/db_metadata_context.hpp:132-145 | a push refines insertion into the map, and the lower bound stays at a root or at the maximum version if and only if the root is not empty, the window was empty or the bound already had a root |
| `RootOffsets.AssignRefines` | category/mpt/db_metadata_context.hpp:147-155 | an assign inside the window refines the map update and leaves the lower bound at a root or at the maximum version |
| `RootOffsets.RewindRefines` | category/mpt/db_metadata_context.hpp:190-203 | a rewind that returns refines dropping all later versions from the map and leaves the lower bound at a root or at the maximum version |
| `RootOffsets.RewindReturnsIff` | category/mpt/db_metadata_context.hpp:190-203 | counting in 64 bits, the assertions hold and the loop ends if and only if the ring holds later versions, at most its capacity of them; on an empty ring it aborts or never ends |
| `RootOffsets.LowerBoundOfRun` | category/mpt/db_metadata_context.hpp:84-203 | after every run from an empty ring the lower bound is the lowest version with a root; with no root at all it is the maximum version if and only if the run left at most one version in the window, a width the commands alone give, and always when the last command is not an empty push |
| `RootOffsets.PushKeepsLookupsIff` | category/mpt/db_metadata_context.hpp:132-145 | a push gives the map's lookups if and only if the window is not full or the overwritten root is the pushed one |
| `RootOffsets.TwoEmptyPushesAreLoose` | category/mpt/db_metadata_context.hpp:142-144 | two empty pushes leave the lower bound at a version that is neither a root nor the maximum |
| `RootOffsetsRing.RootOffsetsDelegator.UpdateVersionLowerBound` | category/mpt/db_metadata_context.hpp:84-102 | the walk over array slots stores the first version with a root at or above the start, or the maximum version, and nothing on an empty ring |
| `RootOffsetsRing.RootOffsetsDelegator.PushBack` | category/mpt/db_metadata_context.hpp:132-145 | the in-place push reaches the state of the pure push that the refinement is proved for |
| `RootOffsetsRing.RootOffsetsDelegator.AssignAt` | category/mpt/db_metadata_context.hpp:147-155 | the in-place assign reaches the state of the pure assign |
| `RootOffsetsRing.RootOffsetsDelegator.ResetAll` | category/mpt/db_metadata_context.hpp:177-188 | every slot is emptied and both bounds are the given version |
| `RootOffsetsRing.RootOffsetsDelegator.RewindToVersion` | category/mpt/db_metadata_context.hpp:190-203 | the loop of in-place assigns reaches the state of the pure rewind |
| `RootOffsetsRing.RootOffsetsDelegator.FastForwardNextVersion` | category/mpt/db_metadata_context.cpp:718-741 | the loop of empty pushes, or the reset, reaches the state of the pure fast forward |
| `RootOffsetsRing.RootOffsetsCopies.AppendRootOffset` | category/mpt/db_metadata_context.cpp:689-698 | both copies take the push |
| `RootOffsetsRing.RootOffsetsCopies.UpdateRootOffset` | category/mpt/db_metadata_context.cpp:700-716 | as written, both passes test emptiness through copy 0 |
| `RootOffsetsRing.RootOffsetsCopies.FastForwardNextVersion` | category/mpt/db_metadata_context.cpp:718-741 | both copies take the fast forward |
| `RootOffsetsRing.UpdateAgreesIff` | category/mpt/db_metadata_context.cpp:700-716 | two agreeing copies agree after an update if and only if it does not erase the only version; otherwise copy 0 is reset and copy 1 keeps its bounds |
| `RootOffsetsRing.CopiesMeetAgain` | category/mpt/db_metadata_context.cpp:718-741 | copies that parted this way agree again after a fast forward and an append to any version above the erased one; for every other version the assertion of the fast forward holds for copy 0 and fails for copy 1 |
| `RootOffsetsRing.FastForwardRefines` | category/mpt/db_metadata_context.cpp:718-741 | a fast forward refines keeping every root of the map, or none when it jumps a whole ring ahead, if and only if it jumps that far or the window still fits the ring |
| `RootOffsetsRing.FastForwardLookups` | category/mpt/db_metadata_context.cpp:718-741 | for every jump: the lookups afterwards are the map's for the last capacity versions and empty for all others, and all empty after a jump of a whole ring |
| `MetadataMigration.Migrate` | category/mpt/db_metadata_context.cpp:69-171 | in place, with two stashes and a move of the chunk list over itself, every byte of the buffer is the stated one, by position: magic, unchanged prefix, moved fields, idle fields, chunk list, unchanged rest, for every chunk count |
| `MetadataMigration.MoveDown` | category/mpt/db_metadata_context.cpp:99-104 | the ascending byte copy inside one buffer moves the old bytes, also where the regions overlap |
| `MetadataMigration.OffsetsNeedStash` | category/mpt/db_metadata_context.cpp:80-97 | read after the move, the offsets and consensus block is intact for every copy if and only if there are at most 64981 chunks |
| `MetadataMigration.ListsNeedStash` | category/mpt/db_metadata_context.cpp:80-91 | read after the move, the list triple is intact for every copy if and only if there are at most 65501 chunks |
| `MetadataMigration.MigrationMovesFields` | category/mpt/db_metadata_context.cpp:69-171 | chunk info, list triple, offsets and consensus versions, block ids and auto-expire arrive byte for byte at their new positions, and the header prefix and the bytes behind the chunk list stay |
| `MetadataMigration.MigrationIsIdle` | category/mpt/db_metadata_context.cpp:155-171 | all other bytes of the header: the state machine kind is zero, the secondary ring has length zero, zero bounds and all-ones chunk slots, and no operation is pending |
| `MetadataMigration.CrashIsTorn` | category/mpt/db_metadata_context.cpp:298-320 | dying after any store, or after any byte of one, leaves a dirty copy with the old or the new magic |
| `MetadataMigration.ScopeMigrates` | category/mpt/db_metadata_context.cpp:298-320 | setting the dirty byte, all stores and clearing it leave the migrated copy |
| `MetadataMigration.ScopeDies` | category/mpt/db_metadata_context.cpp:298-320 | dying in any of the twelve stores of that scope, after any byte, leaves the copy untouched, torn or migrated |
| `MetadataMigration.ReopenMigratesBoth` | category/mpt/db_metadata_context.cpp:262-364 | for either copy, every store of its scope and every byte of that store: dying there and reopening leaves both copies fully migrated and clean |
| `MerkleCompute.RootIsTrieRoot` | category/mpt/compute.hpp:392-456 | the root data computed bottom-up equals TRIE of Appendix D of the Yellow Paper on the map the canonical trie holds, with branch values and inlined short children; a root with a single child counts the map without its own entry |
| `MerkleCompute.ComputeMatches` | category/mpt/compute.hpp:276-390 | the reference computed for any canonical subtrie equals n(J, i) of Appendix D on the entries below it |
| `MerkleCompute.EmptyRootValue` | category/mpt/compute.hpp:371-373 | an empty root value, as subtrie roots store it, gives the same root as no value |
| `CompactEncoding.CompactEncode` | category/mpt/merkle/compact_encode.hpp:39-67 | the nibbles written one after the other into the buffer are the hex-prefix encoding of Appendix C, and the rest of the buffer stays |
| `CompactEncoding.CompactDecode` | category/mpt/merkle/compact_encode.hpp:72-119 | the decoder accepts exactly the encodings of paths that the encoder takes and that have at most 255 nibbles, and returns that path and flag; each error exactly under its condition |
| `CompactEncoding.CompactIsInjective` | category/mpt/merkle/compact_encode.hpp:39-119 | no two paths, with their flags, share an encoding |
| `RlpCodec.ParsesExactlyEncodings` | category/execution/ethereum/rlp/decode.hpp:36-216 | for every input shorter than 2^64 bytes the decoder yields a type, a payload and a rest if and only if the input is the canonical encoding of that payload followed by that rest |
| `RlpCodec.DigitsOfNumber` | category/core/rlp/encode.hpp:34-70 | the length digits are the number in base 256 without leading zeros |
| `RlpCodec.ItemIsDetermined` | category/core/rlp/encode.hpp:90-165 | an encoded item, whatever follows it, determines the item and what follows: no encoding is a prefix of another |
| `ChildEncoding.EncodeChildSpan` | category/mpt/compute.cpp:70-96 | the two nested loops write exactly sixteen items, an empty string for every absent child |
| `ChildEncoding.BranchFits` | category/mpt/compute.hpp:124-178 | sixteen children and an empty value take at most 529 bytes and the list at most 532 |
| `MakeNode.EncodeBothWays` | category/mpt/compute.cpp:70-122 | the items encoded from a span and from the bytes of the node built from that span are the same |
| `MakeNode.EncodeChildNode` | category/mpt/compute.cpp:98-122 | from the bytes of a node, each child found through the mask and the data offsets, exactly sixteen items |
| `MakeNode.Make` | category/mpt/node.cpp:546-607 | the two loops over the span, the first summing in sixteen bits, lay out the node; for every valid child with k valid ones before it the accessors of entry k return its offset, minimum offsets, minimum version and data, and path, value and version are those given |
| `MakeNode.MadeNodeHolds` | category/mpt/node.cpp:546-607 | the accessors of the built node find the mask and the data of exactly the valid children, in branch order |
| `MakeNode.MaskIsBranches` | category/mpt/util.hpp:274-281 | a mask that has a bit for each child and no more bits than children has exactly their bits, and counting the bits below a branch gives the place of its child |
| `MakeNode.EraseKeepsMask` | category/mpt/trie.cpp:123-139 | erasing a child takes its bit and its slot away together, so the mask still fits the span |
| `ComputeObjects.VarLenMerkleCompute.ComputeNodeDataLen` | category/mpt/compute.hpp:299-311 | the announced length is that of the node data, which waits in the state when there is a path |
| `ComputeObjects.VarLenMerkleCompute.SetNodeData` | category/mpt/compute.hpp:313-327 | hands the waiting data over and empties the state |
| `ComputeObjects.VarLenMerkleCompute.CreateNode` | category/mpt/compute.hpp:296-327 | sizing and then filling a node stores its data and leaves the state empty for the next node |
| `ComputeObjects.VarLenMerkleCompute.ComputeReference` | category/mpt/compute.hpp:329-354 | the reference computed from what a node stores is the one the trie-root theorem is about |
| `ComputeObjects.VarLenMerkleCompute.CreateRoot` | category/mpt/compute.hpp:404-455 | the root data object computes the data the trie-root theorem is about, always 32 bytes, and leaves the state empty |
| `TrieLookup.FindBlocking` | category/mpt/find.cpp:30-82 | the nibble loop returns the reference lookup's code, node and index for every trie, key and start cursor |
| `TrieLookup.FindFiber` | category/mpt/find_notify_fiber.cpp:185-248 | the recursive descent returns the same as the blocking lookup and terminates on the shrinking key |
| `TrieLookup.FindSender` | category/mpt/find_request_sender.hpp:204-296 | the self re-entering loop returns the same as the blocking lookup |
| `TrieLookup.MatchPath` | category/mpt/find_notify_fiber.cpp:194-212 | comparing the path stops with the reference lookup's failure, or leaves a lookup with the same result |
| `TrieLookup.SuccessIffSpells` | category/mpt/find.cpp:40-81 | a lookup succeeds at a node if and only if the key is the concatenation of paths and branches down to the end of that node |
| `TrieLookup.LocateStops` | category/mpt/find.cpp:30-82 | every result names the node and index that a prefix of the key spells, and the code is the reason why the rest leads no further: key used up at or before the end of the path, another nibble in the path, or no such branch |
| `TrieLookup.LookupIsMap` | category/mpt/find.cpp:30-82 | a lookup succeeds on a node with a value if and only if the key is in the trie's map, with the map's value |
| `CopyTrie.GraftIsReplacement` | category/mpt/copy_trie.cpp:113-273 | for every key: below the destination prefix the result holds exactly the source subtrie re-prefixed, everywhere else exactly what was there |
| `CopyTrie.GraftOrdered` | category/mpt/copy_trie.cpp:37-111 | the graft keeps the children of every node in branch order |
| `CopyTrie.GraftRefusedIff` | category/mpt/copy_trie.cpp:242-244 | the graft is refused if and only if the destination prefix ends inside a node's path |
| `CopyTrie.GetIsLocate` | category/mpt/copy_trie.cpp:120-126 | the value looked up in the result is the value of the node a lookup finds |
| `CopyTrie.GetIsEntry` | category/mpt/copy_trie.cpp:113-273 | the value looked up in the result is the entry of the map the trie holds |
| `NodeStore.MemLocateIsLocate` | category/mpt/find.cpp:40-81 | a lookup that follows loaded children through memory and the others through their offsets finds what the lookup in the trie on disk finds |
| `NodeStore.MemGetIsGet` | category/mpt/find.cpp:40-81 | and so does the value looked up through memory |
| `CopyTrieOnDisk.TrieStore.FindBlocking` | category/mpt/find.cpp:30-82 | the loop over node objects, loading as it goes, returns the reference lookup, and a found node is the one the key leads to |
| `CopyTrieOnDisk.TrieStore.MakeNode` | category/mpt/node.cpp:502-544 | the new node takes over the children and their pointers, and the old one keeps its offsets without pointers |
| `CopyTrieOnDisk.TrieStore.Descend` | category/mpt/copy_trie.cpp:165-223 | the descent loads missing children and stops exactly where the graft has to happen, with the frames that lead back to the root |
| `CopyTrieOnDisk.TrieStore.AddBranch` | category/mpt/copy_trie.cpp:37-75 | the new child is written and added in branch order, all other children keep their content |
| `CopyTrieOnDisk.TrieStore.SplitNode` | category/mpt/copy_trie.cpp:77-111 | the split node has the graft and the rest of the old node as children, both written |
| `CopyTrieOnDisk.TrieStore.Rebuild` | category/mpt/copy_trie.cpp:176-250 | the replacement node, or the refusal, is the pure graft of the node where the descent stopped |
| `CopyTrieOnDisk.TrieStore.WriteStack` | category/mpt/copy_trie.cpp:262-269 | the loop stops at a missing pointer if and only if one of the frames lost it, and otherwise leaves every stored offset equal to the node in memory |
| `CopyTrieOnDisk.TrieStore.Unwind` | category/mpt/copy_trie.cpp:255-270 | with the last parent on the stack twice, writing the insertion path bottom-up gives the root the pure graft gives |
| `CopyTrieOnDisk.TrieStore.CopyTrieImpl` | category/mpt/copy_trie.cpp:113-273 | for a source in the destination trie or in another one, and any root path: each way to fail has its exact condition, a missing pointer being met if and only if the source lies on the way to the destination above the last parent; otherwise every key, looked up through memory, gives under the destination prefix what the source prefix gave and elsewhere what it gave before, except that the key of a root that is split or gets a branch now has the value of the source root; a source in another trie is looked up as before |
| `CopyTrieOnDisk.CopyCanFail` | category/mpt/copy_trie.cpp:255-270 | a store with nodes at 1, 12 and 123 where copying 1 to 1234 meets the failing condition |
| `CopyTrieOnDisk.CopyOntoOwnPath` | category/mpt/copy_trie.cpp:113-273 | and the copy does fail there |
| `CopyDescent.SeveredIff` | category/mpt/copy_trie.cpp:204-223 | the source object is a parent on the descent other than the last one exactly when both roots are one and the source prefix is the key of such a parent |
| `CopyDescent.MemAtUnique` | category/mpt/copy_trie.cpp:204-223 | with one pointer to every node, two keys that lead to one node are the same key from the same root |
| `CopyClimb.CopyLookups` | category/mpt/copy_trie.cpp:113-273 | the graft under a root, for every key: the source root value at the key of a root that was split or got a branch, the source under the destination prefix, the old trie elsewhere |
| `ReadCoalescing.EveryRequestOnce` | category/mpt/find_notify_fiber.cpp:95-182 | in every reachable state the in-flight keys are the outstanding reads and disjoint from the cache, each request waits in exactly one list with no answer or has exactly one answer, and a node that passes the offset check is the one written there |
| `ReadCoalescing.NoReadNoWaiter` | category/mpt/find_notify_fiber.cpp:252-408 | once no read is outstanding every request ever made has exactly one answer |
| `ReadCoalescing.CompleteCaches` | category/mpt/find_notify_fiber.cpp:128-151 | a completed read leaves exactly its node in the cache, or, if its chunk was recycled, nothing |
| `ReadCoalescing.NeverCachedTwice` | category/mpt/find_notify_fiber.cpp:142-145 | the receiver's assertion holds in every reachable state: no outstanding node is in the cache |
| `ReadCoalescing.ParksOnMiss` | category/mpt/find_notify_fiber.cpp:252-363 | a descent parks only on an uncached live node and with a strictly shorter key |
| `ReadCoalescing.YieldIsTrue` | category/mpt/find_notify_fiber.cpp:138-151 | a chunk recycled during the read never yields a node |
| `ReadCoalescing.RunKeeps` | category/mpt/find_notify_fiber.cpp:95-408 | the invariant is kept by every run of requests, completions, evictions, writes and recycling |
| `ReadProgress.EveryRequestCanFinish` | category/mpt/find_notify_fiber.cpp:95-408 | from every reachable state every waiting request is answered exactly once after ending at most one read per nibble left of its key and one more |
| `ReadProgress.CompleteNears` | category/mpt/find_notify_fiber.cpp:128-182 | when a read ends, each request that waited for it is answered or waits again with a strictly shorter key |
| `ReadAnswers.AnswersAreRight` | category/mpt/find_notify_fiber.cpp:95-408 | after any run, a request and any further run that neither expires its version nor recycles an offset on its way: once answered, it was answered with the result of the lookup on what the disk held when it was made |
| `ReadExpiry.AnswersAreRightOrGone` | category/mpt/find_notify_fiber.cpp:95-408 | after any run, a request and any further run in which the offsets on its way are filled again only once its version has expired: the answer is the result of the lookup on what the disk held when it was made, or that the version is gone, never another node |
| `ReadExpiry.DescendHopes` | category/mpt/find_notify_fiber.cpp:252-363 | a descent after releases and expiry ends as the lookup made before them, or with the version gone, or parks on the way of that lookup |
| `ReadAnswers.OnDiskIsLocate` | category/mpt/find_notify_fiber.cpp:252-363 | the lookup on disk has the code and the node of the nibble-by-nibble lookup in the trie the disk holds |
| `ReadAnswers.SuccessIsSpelled` | category/mpt/find_notify_fiber.cpp:252-363 | such a request succeeds exactly if its key spells a node of the trie it starts in, and the answer is that node |
| `NodeLayout.ParseReadsImage` | category/mpt/node.cpp:86-393 | the offset accessors read back every on-disk field of every node, child data included, and the node ends where its bytes end |
| `NodeLayout.ImageIs` | category/mpt/node.cpp:86-393 | by position: mask in bytes 0 and 1, flags and data length in byte 2, path end in byte 3, value length in bytes 4 to 7, version in bytes 8 to 15, and path, value, data and child data behind 26 bytes for each child |
| `NodeLayout.OffsetsAre` | category/mpt/node.cpp:86-393 | the six sections of a node with n children begin 16, 16 + 8n, 16 + 12n, 16 + 16n, 16 + 24n and 16 + 26n bytes into it |
| `NodeLayout.FnextPlace` | category/mpt/node.cpp:86-393 | the offset of child i is the eight-byte integer at byte 16 + 8i |
| `NodeLayout.FastPlace` | category/mpt/node.cpp:86-393 | the minimum fast offset of child i is the four-byte integer at byte 16 + 8n + 4i |
| `NodeLayout.SlowPlace` | category/mpt/node.cpp:86-393 | the minimum slow offset of child i is the four-byte integer at byte 16 + 12n + 4i |
| `NodeLayout.VersionPlace` | category/mpt/node.cpp:86-393 | the version of child i is the eight-byte integer at byte 16 + 16n + 8i |
| `NodeLayout.LeByte` | category/mpt/node.cpp:86-393 | byte i of a stored integer is its digit of weight 256^i |
| `NodeSerialize.SerializeNodeToBuffer` | category/mpt/node.cpp:637-660 | writes bytes [offset, offset + count) of size-prefixed node into the buffer and nothing else, also when the cut falls inside the size |
| `NodeSerialize.SerializeInPieces` | category/mpt/node.cpp:637-660 | any sequence of consecutive pieces adds up to the same bytes as one piece |
| `NodeSerialize.DeserializeNode` | category/mpt/node.hpp:414-440 | a size of one to three bytes copies past the buffer; otherwise it aborts unless the size and the recomputed memory size fit, and the node has the bytes read and empty child pointers |
| `NodeSerialize.MemSizeIsCalculated` | category/mpt/node.hpp:366-380 | the memory size recomputed from the bytes is the size the node was allocated with when it was built |
| `NodeSerialize.AllocationIs` | category/mpt/node.hpp:366-380 | the size is the least multiple of eight that holds 16 bytes, 42 for each child and the path, value, data and child data |
| `NodeSerialize.WriteAndRead` | category/mpt/node.hpp:414-440 | a node written in any pieces and read back has every field it had, empty child pointers and its original allocation size |
| `PageCommit.MergeTree` | scripts/page_commit_reference.py:189-217 | for every bitmap and every height the bottom-up merge returns the root of the recursive sparse tree and leaves exactly one bit |
| `PageCommit.OnesIncreasing` | scripts/page_commit_reference.py:189-209 | the bits of every bitmap are enumerated in ascending order |
| `PageCommit.LevelIsLift` | scripts/page_commit_reference.py:194-213 | one merge level turns the row of a level into the row of the next |
| `PageCommit.LiftCombines` | scripts/page_commit_reference.py:191-213 | each block of the next row is the combination of its two halves, an empty side skipped |
| `PageCommit.FindMerges` | scripts/page_commit_reference.py:194-209 | the scan with one remembered position finds exactly the sibling pairs |
| `PageCommit.ApplyMerges` | scripts/page_commit_reference.py:210-213 | the merges update scratch and drop the right bits, one after the other |
| `Bitmap.OnesStep` | scripts/page_commit_reference.py:184-209 | taking the lowest set bit and clearing it enumerates the set bits of every bitmap in ascending order |
| `Bitmap.OnesClear` | scripts/page_commit_reference.py:213 | clearing a bit removes that position and no other |
| `Bitmap.OnesSet` | scripts/page_commit_reference.py:156-169 | setting a bit above all others appends its position |
| `Bitmap.BitIsDigit` | scripts/page_commit_reference.py:156-169 | bit i of a bitmap is its binary digit of weight 2^i |
| `Bitmap.SetBitAdds` | scripts/page_commit_reference.py:156-169 | setting bit i adds 2^i if the bit was not set, and nothing otherwise |
| `PageCommit.ComputeSlotBitmap` | scripts/page_commit_reference.py:156-161 | a bit is set if and only if the slot is not zero |
| `PageCommit.DerivePairBitmap` | scripts/page_commit_reference.py:164-169 | a bit is set if and only if one of the two slots is active |
| `PageCommit.HashLeaves` | scripts/page_commit_reference.py:181-187 | for every pair with a non-zero slot, and no other, the scratch entry is the leaf hash of its left and right slot, in this order |
| `PageCommit.Commit` | scripts/page_commit_reference.py:172-217 | the commitment is the seal of the slot bitmap and of the recursive root; for a zero page it is the seal of zero and no root, for a page with one active pair the sealed leaf hash of that pair, and for two active pairs the sealed parent of their leaf hashes, left pair first |
| `PageCommit.RootOfHalves` | scripts/page_commit_reference.py:189-217 | the root of a page is the parent of the roots of its two halves, or the one that is there |
| `PageCommit.Binding` | scripts/page_commit_reference.py:137-217 | two different pages with one commitment yield an explicit collision of the leaf, the parent or the seal hash |
| `StatsSeqlock.ReadsAreWholeAndMonotone` | category/mpt/db_stats_shm.cpp:272-294 | in every interleaving, with any number of writer deaths and takeovers and fewer than 2^31 writes per attempt, each returned record is one whole published or zero record, and one reader never goes back |
| `StatsSeqlock.ReadIsWhole` | category/mpt/db_stats_shm.cpp:277-291 | an attempt whose sequence number is back where it began copied the last record completed before it |
| `StatsSeqlock.ReadSucceeds` | category/mpt/db_stats_shm.cpp:272-294 | from every reachable state with no write in flight, for every record size, the next read of any reader takes one attempt and appends exactly the last published record |
| `StatsSeqlock.GivesUpExactlyAfterEight` | category/mpt/db_stats_shm.cpp:277-295 | in every run a read gives up exactly with the eighth failed attempt in a row, and returns a record exactly with a successful one |
| `StatsSeqlock.HeldLockGivesUp` | category/mpt/db_stats_shm.cpp:277-295 | while a write stays in flight, eight attempts fail, the read gives up and nothing else changes |
| `StatsSeqlock.PublishThenRead` | category/mpt/db_stats_shm.cpp:194-204 | from every reachable state with the writer idle, publishing any record and then reading returns that record |
| `StatsSeqlock.TakeoverCompletes` | category/mpt/db_stats_shm.cpp:151-171 | from every reachable state, whatever the writer was doing when it died, a takeover ends idle over a zero record, with an even sequence number and no reader changed |
| `StatsSeqlock.TakeoverReleases` | category/mpt/db_stats_shm.cpp:151-169 | a completed takeover leaves the lock released, whatever the dead writer left |
| `StatsSeqlock.TakeoverTurnsReadersAway` | category/mpt/db_stats_shm.cpp:151-171 | in every reachable state no reader can open the file during a takeover, and any reader can once the writer is idle |
| `StatsSeqlock.PublishedWereOffered` | category/mpt/db_stats_shm.cpp:194-204 | every published record is one a writer offered or the zero record of a takeover |
| `StatsSeqlock.TornAfterWrapAround` | category/mpt/db_stats_shm.cpp:272-294 | with exactly 2^31 writes in one attempt the read of a record of any size succeeds and mixes two records, so the bound cannot be raised |
| `StatsSeqlock.TornReadHappens` | category/mpt/db_stats_shm.cpp:272-294 | from every initial file of at least two words there is a run, timely but for its last event, which returns a record nobody published |

## Left out

- Real memory mapping, `msync` and `fsync`, and page reordering at power failure: a crash here keeps a prefix of the program-order stores.
- A second crash during the replay of an activate or a deactivate, and the ring data of copy 1 after a crash: healing never copies ring data.
- Healing (`db_copy`) takes place in one step.
- Weak memory ordering: interleavings are sequentially consistent.
- The hash functions Keccak and BLAKE3 are parameters; the node reference is taken from the Yellow Paper's definition.
- The typed RLP decoders (integers, fixed strings) on top of the parser of lengths and payloads.
- `MerkleComputeBase`, the fixed-length compute, beyond the size bounds of its branch buffer.
- Trie upsert, compaction, minimum-offset bookkeeping and the free, fast and slow chunk lists.
- Asynchronous I/O plumbing, buffers, threads and the page arithmetic of reads; the cache's eviction order (any entry may be dropped at any time).
- Command line tools, archives, logging, configuration and storage-pool device setup.
- Bytes are natural numbers; field widths are stated where they matter.
- TrieLookup.FindBlocking: tries are values, so the in-memory caching of loaded children is not visible; versions stay valid and reads run on the I/O thread for the whole call.
- TrieLookup.FindFiber: as for the blocking lookup; suspended reads complete immediately.
- TrieLookup.FindSender: as for the blocking lookup; suspended reads complete immediately.
- CopyTrieOnDisk.TrieStore.CopyTrieImpl: each node in memory has at most one pointer to it and roots have none; without a destination the destination prefix is not empty; node versions and minimum offsets are not kept, and nodes are never freed. When source and destination are one trie, the lookups of the source are those of the result.
- ComputeObjects.VarLenMerkleCompute.ComputeReference: the leaf processor is the identity.
- MakeNode.Make: the arrays are built side by side and laid out once, instead of stored into the allocation; the mask is given, as in the source.
- NodeLayout.ParseReadsImage: the bytes are given part by part; the order in which the constructor writes them into the allocation is not modelled.
- MetadataMigration.ReopenMigratesBoth: opening leaves out the step that restores a front copy without the current magic from a back copy that has it (`db_metadata_context.cpp` lines 228 to 243); the front copy is migrated first, so no crash treated here reaches it.
- The two metadata copies are equal and clean before the migration, and one process dies once.
- NodeSerialize.DeserializeNode: what the copy past the buffer reads is not modelled; nor is a node shorter than its two mask bytes.
- PageCommit.Commit: page slots are values compared with a zero value, and the seal takes the bitmap as an integer instead of its sixteen bytes; a page has 2^height pairs for any height.
- ReadAnswers.AnswersAreRight: leaves a request whose version expires or one of whose offsets is recycled while it waits to `ReadExpiry.AnswersAreRightOrGone`.
- ReadExpiry.AnswersAreRightOrGone: that chunks are reused only after the versions that need them expired is a condition here; compaction, which sees to it, is not part of this model.
- ReadProgress.EveryRequestCanFinish: says that the reads met can be ended, not that a scheduler does so.
- ReadCoalescing.RunKeeps: a request's whole descent up to the point where it parks is one step.
- StatsSeqlock.ReadsAreWholeAndMonotone: the payload size check, which is constant here, is not modelled.
