# raiko, verified

raiko prepares and proves blocks: it fetches the state a block touches, checks it against the parent's
state root, executes the block over it, and recomputes the new root inside a prover. This project models
the parts of raiko on which the soundness of that root rests, and the machinery that feeds them, and
proves what they promise.

## What is modelled

**The sparse Merkle Patricia trie.** `HexPrefix`, `Rlp` and `Trie` hold paths, encodings and the trie
as a value, with every branch of `get`, `insert` and `delete`, including the branches that report a
missing sub-trie (`Digest`), the refusal to store a value in a branch, and the panics. `TrieMap` proves
the map laws with atomic failure, `TrieUnique` that a map has exactly one trie, `TrieCodec` and
`TrieFidelity` the encoding (Appendices B, C and D of the Ethereum Yellow Paper), `TrieResolve`,
`TrieTruncation` and `TrieProofs` truncation, resolution and assembly from EIP-1186 proofs,
`TrieBinding` that a root binds the contents, `TrieDigests` that no operation makes up a digest, `Healing` what
a trie stands for after deletions that could not see all they needed, `HonestProofs` that the proof for a key
goes together again and answers for it, `ProofServing` and `ManyDeletions` that the proofs of the keys before
the first and after the last of any number of deletions suffice to make them all, and `StorageProofs` the loops
that collect a storage trie from such proofs.
`MptHeap` is the trie as the program keeps it: linked nodes updated in place, each with a cached
reference, proved to follow the value model step by step; `MptHistory` adds assembly from proofs and
whole histories of every operation that makes, changes or replaces nodes.

**The state root.** `State` holds accounts, slots and their encoding, `MemDb` the in-memory database and
its account state machine, `Loading` the checked load from the guest input, `StateRoot` the loop that
writes committed accounts back, as a tour over accounts and slots in any order, `SparseRoot` the same over
truncated tries, `HealedRoot` exactly when the root over truncated tries is right, `BlockState` what a commit
over loaded accounts makes of the parent state, and `GuestBlock` the whole way from the parent tries, truncated
or not, and an execution outcome to the new root.

**The optimistic preflight.** `Preflight` runs an arbitrary program of reads (the executor) over a
database that guesses what it does not have, fetches it between runs, and stops at the first run
without a guess. The provider serves a fixed world but may fail; which of its answers fail is arbitrary.

**The blob codec.** `Blob` is the encoding and what decoding means, `BlobDecoder` the decoder that fills
a buffer in place. `Distribution` hands the decoded transactions out to blocks.

**The scheduler and the batching of proof requests.** `RequestQueue` is the priority queue. `Backend`
interleaves submitters, the backend loop, its tasks and their finishers as single steps over the locked
queue, the semaphore, the done channel and the notifier. `ProofBatching` is the loop that asks for
Merkle proofs in batches.

## Conventions

- Keccak-256 is a parameter, an arbitrary function from bytes to 32 bytes. Where a statement needs
  collision freedom it says so, and only for the finitely many inputs in use.
- A Rust panic (`unwrap`, `expect`, `unreachable!`, failed `assert!`) is an error value or a `None`;
  theorems say when it cannot happen.
- Iteration over hash maps and sets picks elements in an arbitrary order.
- Encoding lengths below 2^64 are assumed where a header stores them.
- The hash of the empty trie and of empty code are the program's constants; as Keccak-256 is a parameter, only
  a hypothesis can relate them to it.
- Libraries outside the repository (`rlp`, `alloy_rlp`, revm's `is_empty`, tokio's `Notify`, semaphore
  and channel) are modelled by their documented behaviour.
- `Path` in the value model is the parsed hex-prefix path (its nibbles and its first nibble); the heap
  model keeps the raw bytes.

## Findings

- Deletion in a sparse trie is not always the deletion in the resolved trie. If a branch collapses onto
  a child that is a digest, and that digest stands for a leaf or an extension, the program leaves an
  extension above it where the resolved trie has one merged path.
  `TrieTruncation.DeletionCanMisplaceAPath` builds such a trie and a byte key; `TrieTruncation.DeleteTransparentIff`
  proves that this is the only case, and `ManyDeletions.NothingHidden` that the nodes which the program adds
  from the proofs after the block rule it out, for every one of the deletions.
- Such a misplaced path is not the end: a later insertion can split it again, and the root is right once more
  (`Healing.ObstructionCanHeal`). So that no deletion is obstructed is enough for the right root
  (`HealedRoot.UnobstructedIsHealed`), but not necessary. The exact condition is that the tries in the end are
  canonical once resolved (`HealedRoot.RootIsRightExactly`).
- Insertion and deletion can be refused with `ValueInBranch` although the trie is complete, when one key
  is a prefix of another. `TrieUnique.InsertRefusedIff` and `TrieUnique.DeleteRefusedIff` give the exact
  conditions, `TrieUnique.InsertionCanBeRefused` and `TrieUnique.DeletionCanBeRefused` byte keys that meet
  them; with keys of one length neither happens (`TrieUnique.NeverRefused`).
- `mpt_from_proof` puts the next node into the first child with its reference. If an earlier sibling is
  equal to the child on the way, the wrong one is opened and the lookup fails
  (`HonestProofs.TwinsAreConfused`, with a key of full length); `HonestProofs.HonestAnswer` proves that this is the only way in which the
  proof of a complete trie fails to answer.
- `Queue::complete` keeps the queue's books only for keys that are not still waiting
  (`RequestQueue.CompleteKeepsSound`; `RequestQueue.CompletionCanBreakTheBooks` for one that is).
- The decoder of blobs does not look at the two top bits of the very first byte; apart from these, a
  blob is determined by what it decodes to (`Blob.OneBlobPerData`, and `Blob.TwoBlobsOnePayload` for two
  blobs with one payload).
- A preflight that ends before its hundredth run ran its last iteration in optimistic mode, whereas the
  guest executes with validation. The two make the same reads and changes, up to the validated run being
  turned down, exactly if they agree at every step of the direct run (`Preflight.SameRunIff`); the guest then
  finds everything it reads (`Preflight.GuestIsServed`). For an executor whose mode makes no difference but for
  validation this holds in every world (`Preflight.ValidatesOnlyAgrees`). `Preflight.GuestCanBeLeftOut` runs the
  preflight of a program to its end after which the guest does not find what it reads.
- An account of the outcome that is not in the guest input gets no entry in the new trie: it makes the root
  fail if it exists and is not empty afterwards (`GuestBlock.NewAccountsNeedEntries`), and is void otherwise
  (`GuestBlock.ProcessedRoot`).

## Model

| member | source | states |
|---|---|---|
| HexPrefix.PathRoundTrip | lib/src/primitives/mpt.rs:872-908 | reading back an encoded path gives the same nibbles, and the leaf flag tells leaf from extension |
| HexPrefix.RawOfParsed | lib/src/primitives/mpt.rs:893-908 | the parsed form of a path loses nothing: its bytes come back |
| HexPrefix.NibblesOfInjective | lib/src/primitives/mpt.rs:853-864 | different byte keys have different nibbles |
| HexPrefix.ToNibs | lib/src/primitives/mpt.rs:853-864 | the loop splits each byte into high and low nibble in order |
| HexPrefix.ToEncodedPath | lib/src/primitives/mpt.rs:872-882 | the loop writes the hex-prefix encoding of Appendix C, odd and even, leaf and extension |
| HexPrefix.PathBytesExactly | lib/src/primitives/mpt.rs:872-882 | the bytes in which a path is written are those of Appendix C and no others: mark and parity in the high nibble of the first byte, an odd nibble in its low one, the rest in pairs |
| HexPrefix.PrefixNibs | lib/src/primitives/mpt.rs:893-908 | the loop reads the nibbles of an encoded path |
| HexPrefix.PathNibsAt | lib/src/primitives/mpt.rs:893-908 | from a prefix with any mark, every nibble is read from its place, which only the parity bit decides |
| HexPrefix.CommonLenUnique | lib/src/primitives/mpt.rs:884-891 | the common length is the only one up to which two paths agree and not beyond |
| HexPrefix.Lcp | lib/src/primitives/mpt.rs:884-891 | the loop finds that length |
| TrieMap.InsertIsUpdate | lib/src/primitives/mpt.rs:654-767 | after a successful insert, lookup of every key is map update, including keys behind digests |
| TrieMap.InsertResult | lib/src/primitives/mpt.rs:636-767 | true exactly if the contents changed; unchanged trie on false and on every error; fails unresolved exactly if the lookup does; never panics |
| TrieMap.InsertKeepsCanonical | lib/src/primitives/mpt.rs:654-767 | insertion keeps canonical form |
| TrieMap.DeleteResult | lib/src/primitives/mpt.rs:520-630 | deletion keeps canonical form, never panics in the branch collapse, leaves the trie unchanged on false and on every error, and returns true exactly if the key was there |
| TrieMap.DeleteIsRemoval | lib/src/primitives/mpt.rs:524-630 | after a successful delete, lookup of every key is map removal |
| TrieMap.CollapseIsSilent | lib/src/primitives/mpt.rs:546-590 | folding a branch with one child left into its parent changes no lookup |
| TrieMap.SomethingRemains | lib/src/primitives/mpt.rs:546-560 | a branch that loses a child still has one, so the collapse finds its orphan |
| TrieUnique.Distinguish | lib/src/primitives/mpt.rs:484-516 | two different resolved canonical tries are told apart by a key that the lemma constructs |
| TrieUnique.OneShapePerMap | lib/src/primitives/mpt.rs:524-767 | resolved canonical tries have the same contents if and only if they are equal |
| TrieUnique.RunIsMap | lib/src/primitives/mpt.rs:520-767 | any sequence of successful inserts and deletes acts on the contents as on a plain map |
| TrieUnique.HistoryDoesNotMatter | lib/src/primitives/mpt.rs:520-767 | two histories from the empty trie end in the same trie if and only if they end in the same map |
| TrieUnique.InsertRefusedIff | lib/src/primitives/mpt.rs:654-767 | on a resolved trie an insert is refused exactly when a stored key and the new one are proper prefixes one of the other |
| TrieUnique.InsertionCanBeRefused | lib/src/primitives/mpt.rs:688-689 | two byte keys, one a prefix of the other, of which the second cannot be stored |
| TrieUnique.DeleteRefusedIff | lib/src/primitives/mpt.rs:524-630 | on a resolved trie a delete is refused exactly when its key ends where two stored keys part |
| TrieUnique.DeletionCanBeRefused | lib/src/primitives/mpt.rs:540-544 | two stored byte keys and a common prefix of them whose deletion is refused |
| TrieUnique.NeverRefused | lib/src/primitives/mpt.rs:520-767 | with keys of one length, insert and delete always succeed and keep the length |
| Rlp.ItemsOfFlatten | lib/src/primitives/mpt.rs:292-335 | a list of encoded items is read back as those items |
| Rlp.StringBytes | lib/src/primitives/mpt.rs:256-268 | a string is written as Appendix B says: a byte below 128 as itself, up to 55 bytes behind one byte of length, else behind the length of the length and the length in as few bytes as it has |
| Rlp.ListBytes | lib/src/primitives/mpt.rs:233-254 | the same for the payload of a list |
| Rlp.DataExactly | lib/src/primitives/mpt.rs:292-335 | data is read exactly from the bytes that are written for it, whatever follows |
| Rlp.ListExactly | lib/src/primitives/mpt.rs:292-335 | and so is the payload of a list |
| TrieCodec.LengthIsExact | lib/src/primitives/mpt.rs:277-289 | `length` is the number of bytes that `encode` writes, for every node |
| TrieCodec.BranchPayloadLength | lib/src/primitives/mpt.rs:829-845 | the payload length of a branch is the total length of its seventeen items |
| TrieCodec.RefExactly | lib/src/primitives/mpt.rs:418-431 | a node is referenced by the hash of its bytes exactly if there are at least 32 of them, a digest by itself, and every other node by its own bytes |
| TrieCodec.HashExactly | lib/src/primitives/mpt.rs:387-395 | the root hash is the hash of the node's bytes, however short; that of a digest is the digest, and the empty trie has the fixed one |
| TrieFidelity.DecodeEncode | lib/src/primitives/mpt.rs:222-335 | decoding an encoded trie succeeds and gives the trie with long children as digests and short ones inline |
| TrieFidelity.RlpFidelity | lib/src/primitives/mpt.rs:222-431 | length is exact, decoding succeeds, and the decoded trie has the same bytes, reference and hash |
| TrieFidelity.DecodedIsTelling | lib/src/primitives/mpt.rs:292-335 | everything the decoder accepts is in the class for which fidelity and binding are proved |
| TrieFidelity.NodeBytes | lib/src/primitives/mpt.rs:228-272 | every node is written as Appendix D says: path and value, path and reference, or sixteen references and an empty value, in this order |
| TrieFidelity.DecodeExactly | lib/src/primitives/mpt.rs:292-335 | bytes decode to a node exactly if they spell it: nodes in the form in which they are written, paths under any mark, branches without a value; everything else is refused |
| TrieResolve.ResolveKeepsRef | lib/src/primitives/mpt.rs:974-1004 | resolution from a store keyed by references keeps the reference of every node; it terminates by the rank of digests |
| TrieResolve.ResolveKeepsHash | lib/src/primitives/mpt.rs:974-1004 | resolution keeps the hash |
| TrieResolve.MeasureIsIrrelevant | lib/src/primitives/mpt.rs:974-1004 | the result does not depend on the termination bound |
| TrieTruncation.GetTransparent | lib/src/primitives/mpt.rs:484-516 | a lookup that succeeds on a sparse trie has the same answer on the resolved trie |
| TrieTruncation.InsertTransparent | lib/src/primitives/mpt.rs:654-767 | an insert that does not meet a digest commutes with resolution, result and trie |
| TrieTruncation.DeleteTransparentIff | lib/src/primitives/mpt.rs:524-630 | a delete that does not meet a digest commutes with resolution exactly if no branch collapses onto a digest that stands for a leaf or extension |
| TrieTruncation.DeletionCanMisplaceAPath | lib/src/primitives/mpt.rs:546-590 | for every hash function, a concrete sparse trie, store and byte key for which deletion and resolution do not commute |
| TrieDigests.InsertKeepsDigests | lib/src/primitives/mpt.rs:654-767 | every digest in the trie after an insertion was in it before |
| TrieDigests.DeleteKeepsDigests | lib/src/primitives/mpt.rs:524-630 | every digest in the trie after a deletion was in it before |
| TrieDigests.FailureIsDigest | lib/src/primitives/mpt.rs:484-516 | a lookup fails only at a digest of the trie, and names it |
| Healing.DeleteSeen | lib/src/primitives/mpt.rs:524-630 | a delete that succeeds on a sparse trie is removal from the contents of the resolved trie, obstructed or not |
| Healing.AlikeIsSeenIff | lib/src/primitives/mpt.rs:974-1004 | a sparse trie with the right contents stands for the full trie exactly if it is canonical once resolved |
| Healing.SameHashSameTree | lib/src/primitives/mpt.rs:387-431 | without collisions, resolved tries with one hash are equal, canonical or not |
| Healing.RootIsRightIff | lib/src/primitives/mpt.rs:387-431 | the hash of a sparse trie with the right contents is that of the full trie exactly if it is canonical once resolved |
| Healing.ObstructionCanHeal | lib/src/primitives/mpt.rs:546-743 | for every hash function, a sparse trie, a deletion that is obstructed and an insertion after which it stands for the right trie again |
| TrieProofs.AssembledKeepsRoot | lib/src/primitives/mpt.rs:920-962 | assembly of a proof succeeds exactly if every node refers to the next, and then has the reference and hash of the first |
| TrieProofs.ShortenNodePath | lib/src/primitives/mpt.rs:1010-1032 | the loops list exactly the nodes whose path is a suffix of the given one |
| TrieProofs.OrphanRecovered | lib/src/primitives/mpt.rs:546-618 | whenever a deletion collapses a branch onto a leaf or extension, also below a parent extension, that sibling is among the shortened forms of the node where the lookup ends afterwards |
| TrieProofs.AddOrphanedLeafs | lib/src/primitives/mpt.rs:1117-1136 | fails exactly on a non-empty proof that cannot be parsed, put together or looked up; adds nothing for an empty proof or one that shows the key, and exactly the shortened forms of the last node for one that shows its absence |
| TrieProofs.LastIsKept | lib/src/primitives/mpt.rs:1057-1059 | of several nodes with one reference the last is kept, and what is not replaced stays |
| TrieBinding.RootBindsContents | lib/src/primitives/mpt.rs:387-431 | two tries with one hash answer alike wherever both answer, for a hash function without collisions on their encodings |
| TrieBinding.RootIsFaithful | lib/src/primitives/mpt.rs:387-431 | for resolved canonical tries: same hash, same contents and same trie are equivalent |
| TrieBinding.ProofAnswersAreTrue | lib/src/primitives/mpt.rs:911-962 | what an assembled proof says about a key is what the trie with that root says |
| HonestProofs.HonestAnswer | lib/src/primitives/mpt.rs:920-971 | the proof for a key always goes together, to the root of the trie; it answers for the key, and as the trie does, exactly if no branch on the way has an earlier child with the same reference |
| HonestProofs.ProofsAreComplete | lib/src/primitives/mpt.rs:911-971 | the same from the encoded nodes on, through parsing, assembly and lookup |
| HonestProofs.EmptyTrieAddsNothing | lib/src/primitives/mpt.rs:1117-1136 | the proof of absence from the empty trie, one node that encodes it, is read back as such and adds as little to the store as an empty proof |
| HonestProofs.TwinsAreConfused | lib/src/primitives/mpt.rs:937-946 | for every hash function and every hash whose first nibble is not zero, a trie that holds the key of 64 nibbles and whose proof for it goes together but does not answer |
| ProofServing.PathIsOpen | lib/src/primitives/mpt.rs:974-1004 | a trie resolved from the nodes of a proof answers for its key as the full trie does |
| ProofServing.OrphanStored | lib/src/primitives/mpt.rs:1117-1136 | with the shortened forms of the last node of a proof stored, every shortened form of the node where its lookup ends that is referenced by hash is found in the store |
| ManyDeletions.DeletionKeepsShelter | lib/src/primitives/mpt.rs:524-630 | a deletion of a key that does not come through the node where another lookup ends keeps everything that can be made by shortening that node, and keeps the other keys away from it |
| ManyDeletions.NothingHidden | lib/src/primitives/mpt.rs:1117-1136 | with the shortened nodes of the proofs after all deletions in the store, the next deletion leaves no digest alone that stands for a leaf or extension |
| ManyDeletions.DeletionsAreRemovals | lib/src/primitives/mpt.rs:520-630 | a list of deletions of stored keys succeeds throughout and takes away these keys and no others |
| ManyDeletions.DeletionsAreServed | lib/src/primitives/mpt.rs:1034-1115 | any number of deletions in any order, from a store with the nodes of the proofs before the first and the shortened nodes of the proofs after the last: the resolved trie has the root before, every deletion finds its key, and the root after is that of the full trie without the keys |
| StorageProofs.CollectStorage | lib/src/primitives/mpt.rs:1074-1097 | the loops over the slots fail exactly if a proof before cannot be parsed and assembled or one after has no answer; else the root is the first node of the last proof with one, and the store holds all parsed nodes and the shortened last nodes of the proofs of absence, later ones over earlier ones |
| StorageProofs.RootNodeIs | lib/src/primitives/mpt.rs:1080-1083 | the root is the first node of the last proof that has one |
| StorageProofs.DeletionsFromProofs | lib/src/primitives/mpt.rs:1074-1100 | end to end from the encoded proofs of all slots before and after the block: the loops succeed, the trie resolved from what they collect has the root before, and all deletions of the block can be made from it and end in the root after |
| MptHeap.MptNode.Reference | lib/src/primitives/mpt.rs:376-381 | the cached reference, if there is one, is the freshly computed one; otherwise it is computed and kept |
| MptHeap.MptNode.CalcReference | lib/src/primitives/mpt.rs:418-431 | the node's own bytes below 32 of them, else their hash, and a digest's own; equals the reference of the value model |
| MptHeap.MptNode.EncodeNode | lib/src/primitives/mpt.rs:228-272 | writes the encoding of the value model from cached child references |
| MptHeap.MptNode.Hash | lib/src/primitives/mpt.rs:387-395 | equals the uncached hash in every valid state |
| MptHeap.MptNode.GetInternal | lib/src/primitives/mpt.rs:484-516 | equals lookup in the value model |
| MptHeap.MptNode.InsertInternal | lib/src/primitives/mpt.rs:654-767 | updates the nodes in place to the inserted trie, and leaves every cache on the way coherent |
| MptHeap.MptNode.DeleteInternal | lib/src/primitives/mpt.rs:524-630 | updates the nodes in place to the trie after deletion, and leaves every cache coherent |
| MptHeap.MptNode.Clear | lib/src/primitives/mpt.rs:348-351 | becomes the empty trie with no stale cache |
| MptHeap.MptNode.ResolveNodes | lib/src/primitives/mpt.rs:974-1004 | builds the resolved trie from the store with coherent caches |
| MptHistory.Graft | lib/src/primitives/mpt.rs:929-956 | a fresh copy of the node with its successor in place of the digest, whose reference is cached on the way; panics exactly where the value model does; all caches stay coherent |
| MptHistory.MptFromProof | lib/src/primitives/mpt.rs:920-962 | over nodes in memory with caches: builds the assembled trie with coherent caches, or panics exactly where assembly fails |
| MptHistory.Replay | lib/src/primitives/mpt.rs:343-1004 | a whole history of inserting, deleting, clearing, copying, hashing, resolving, decoding and assembling, in any order and going on after refused operations and undecodable bytes, ends with the uncached hash of the value model |
| State.AccountRoundTrip | lib/src/primitives/mpt.rs:51-76 | an account written to the trie is read back as it was |
| State.AccountItems | lib/src/primitives/mpt.rs:51-60 | an account is written as the list of nonce, balance, storage root and code hash, in this order |
| State.AccountExactly | lib/src/primitives/mpt.rs:51-76 | an account is read exactly from the bytes that are written for it, whatever follows |
| State.UintRoundTrip | lib/src/primitives/mpt.rs:477-482 | a slot value written to the trie is read back as it was |
| State.UintBytes | lib/src/primitives/mpt.rs:645-647 | a number is written as the string of its bytes, most significant first and without leading zeros; zero is the empty string |
| State.UintExactly | lib/src/primitives/mpt.rs:477-482 | a number is read exactly from its canonical bytes, whatever follows |
| State.SlotKeyIs | lib/src/builder.rs:371-371 | a slot is found under the hash of the one string of 32 bytes whose big-endian value it is |
| State.AccountKeyIs | lib/src/builder.rs:344-344 | an account is found under the hash of its address, each byte as its high and its low nibble |
| MemDb.Database.Commit | lib/src/mem_db.rs:216-306 | in any order of the change set, every changed account ends as its change says, slot by slot, and no other changes; the next reads find the new info and values, zero for the other slots of a new account, and nothing for a removed one |
| MemDb.Database.CommitAccount | lib/src/mem_db.rs:218-304 | one step of that state machine: destroyed, emptied, created, cleared and touched accounts |
| MemDb.CommittedExactly | lib/src/mem_db.rs:216-306 | the state machine in terms of the change: destroyed or empty accounts are wiped if known; otherwise the info is the new one, every slot whose value changed has its present value, and every other is as before, or gone if the account is new |
| MemDb.EmptyExactly | lib/src/mem_db.rs:251-275 | an account counts as empty exactly without balance, nonce and code |
| MemDb.Database.InsertAccountInfo | lib/src/mem_db.rs:114-123 | keeps what is there and panics exactly over a different balance, nonce or code hash |
| MemDb.Database.InsertAccountStorage | lib/src/mem_db.rs:125-130 | adds the slot and panics exactly if the account is missing |
| Loading.LoadOne | lib/src/builder.rs:421-476 | an account loads exactly if it can be read, its storage trie has the recorded root, its code is there and all its slots can be read; every slot is the trie's value or zero |
| Loading.AbsentAccount | lib/src/builder.rs:427-439 | an account that is not in the state trie loads exactly with a storage trie of the empty root and readable slots, and has no balance, nonce or code |
| Loading.PresentAccount | lib/src/builder.rs:427-467 | an account that is there loads with the values written for it, and only with the storage trie it commits to |
| Loading.SlotExactly | lib/src/builder.rs:455-459 | a slot loads as the number whose canonical bytes its trie holds, and as zero where there is nothing |
| Loading.LoadBlockHashes | lib/src/builder.rs:482-505 | succeeds exactly for a chain of headers within the window; every header's number is there, and every entry is the hash of a header with that number |
| Loading.CreateMemDb | lib/src/builder.rs:400-512 | accepts exactly the inputs whose tries match the header and account roots and can be read; loads nothing but their values, and the hash of every header |
| StateRoot.WriteIsUpdate | lib/src/builder.rs:340-391 | writing an entry, or its absence, into a full trie always succeeds and is map update |
| StateRoot.UpdateStorage | lib/src/builder.rs:369-377 | the loop writes every slot exactly once, in some order, and stops at the first failure |
| StateRoot.SlotsAreOver | lib/src/builder.rs:364-377 | over a full trie, every order of slots succeeds and gives the trie overlaid with the slots, zero slots absent |
| StateRoot.RethBlockBuilder.WriteStorage | lib/src/builder.rs:354-382 | updates one account's storage trie in place, from nothing if cleared, and panics exactly without an entry for the account |
| StateRoot.RethBlockBuilder.CalculateStateRoot | lib/src/builder.rs:331-397 | for any tries, truncated or not: the result is that of some tour which visits every account once and writes every slot of it once, or the first failure on it |
| StateRoot.RootOfFull | lib/src/builder.rs:331-397 | over full tries, every tour fails exactly if a rewritten account has no storage entry, else ends in the parent state overlaid with the affected accounts |
| SparseRoot.WriteSeen | lib/src/builder.rs:346-390 | a write that succeeds on a truncated trie is the write on the resolved one, exactly if it is not a deletion that leaves alone a digest for a leaf or extension |
| SparseRoot.TourSeen | lib/src/builder.rs:331-397 | a tour over truncated tries that succeeds without such a deletion is the tour over the resolved ones |
| HealedRoot.HealedIsSeen | lib/src/builder.rs:331-397 | a tour that succeeds on truncated tries succeeds on the full ones, and ends in tries that stand for the full ones' exactly if they are canonical once resolved |
| HealedRoot.RootIsRightExactly | lib/src/builder.rs:331-397 | the root of every tour that succeeds on truncated tries is that of the full state overlaid with the affected accounts, exactly if the tries it ends in are canonical once resolved |
| HealedRoot.UnobstructedIsHealed | lib/src/builder.rs:331-397 | a tour without an obstructed deletion meets that condition |
| BlockState.RootIsDetermined | lib/src/builder.rs:331-397 | two runs over differently ordered maps end in the same state trie and root |
| BlockState.LoadedSlotsDropOut | lib/src/builder.rs:369-377 | slots that are written back as they were loaded make no difference |
| BlockState.RootIsOfOverlaidState | lib/src/builder.rs:331-397 | after one commit over loaded accounts the trie holds the parent entries, with removed accounts gone and touched ones rewritten; their storage holds the present value of every changed slot, nothing for zero, and else the parent's, or nothing if created |
| GuestBlock.LoadingSeen | lib/src/builder.rs:400-512 | what is accepted and loaded from truncated tries is what would be from the full ones |
| BlockState.OutcomeSettles | lib/src/builder.rs:288-309 | an account of the outcome is in the new trie exactly if it exists afterwards and is not empty, with its new info and storage root; its storage holds its changed slots over the parent storage, or over none if it did not exist before |
| GuestBlock.ProcessBlock | lib/src/builder.rs:149-397 | for any input and outcome: a root is given exactly for accepted input that some tour over the committed accounts can write back, and it is that of the tries the tour ends in |
| GuestBlock.ProcessedRoot | lib/src/builder.rs:331-397 | with tries that may be truncated, the root is that of the full parent state overlaid with the outcome's infos and slots for the accounts in the input, exactly if the tries in the end are canonical once resolved; other accounts are void |
| GuestBlock.NewAccountsNeedEntries | lib/src/builder.rs:354-361 | a root is given only if every account of the outcome that exists and is not empty afterwards has a storage entry in the input |
| GuestBlock.IdleTour | lib/src/builder.rs:331-397 | no tour over accounts that were written back as loaded fails or changes a trie, truncated or not |
| GuestBlock.IdleBlockKeepsRoot | lib/src/builder.rs:149-476 | for accepted input, truncated or not, a block that changes no loaded value always gets a root, and it is that of the parent header |
| GuestBlock.NothingTruncated | lib/src/builder.rs:331-397 | with nothing truncated, no tour over committed accounts fails, and all end in canonical tries |
| GuestBlock.WholeInputIsBehindItself | lib/src/builder.rs:400-408 | input with nothing truncated stands for itself |
| Preflight.ProviderDb.constructor | core/src/provider/db.rs:35-100 | starts with nothing pending and empty databases, over a given cache of true values and history of block hashes |
| Preflight.ProviderDb.Basic | core/src/provider/db.rs:178-222 | the current database comes first; else what is known is answered with its true value, and what is not is guessed and left pending in optimistic mode, fetched otherwise; a run without guesses records the account, a run with guesses records nothing |
| Preflight.ProviderDb.Storage | core/src/provider/db.rs:224-265 | the same for a slot, guessed as zero; the exact conditions of both panics and of the error over an account that is not loaded; the account of a slot guessed from an empty current database is there or pending |
| Preflight.ProviderDb.BlockHash | core/src/provider/db.rs:267-304 | the same for a block hash, guessed as zero; numbers beyond 64 bits are an error |
| Preflight.DirectFrom | core/src/preflight/util.rs:38-71 | a run whose answers so far are true continues as the direct run does |
| Preflight.ProviderDb.Run | lib/src/builder.rs:149-312 | from a fresh start, a run without a guess is the direct run with every read recorded, and a run with a guess leaves the first guessed read of the direct run pending, one that was unknown |
| Preflight.ProviderDb.FetchData | core/src/provider/db.rs:318-390 | true exactly if nothing was guessed; on false either everything pending is now known and the changes are dropped, or a request failed and work is still pending |
| Preflight.OneMoreKnown | core/src/provider/db.rs:318-390 | after a void run and a successful fetch, at least one more leading read of the direct run is known |
| Preflight.ExecuteTxs | core/src/preflight/util.rs:38-71 | success, under any pattern of failed requests, comes in optimistic mode exactly before the hundredth run, and means that the changes equal those of a direct run from an empty database and that every account, slot and block hash it read is recorded with its true value, and that the guest's validated run is served if the modes agree; without failures there are at most 100 runs, and at most one more than the direct run has reads, and only the program itself can fail |
| Preflight.SameRunIff | lib/src/builder.rs:149-286 | the optimistic and the validated direct run make the same reads and end alike, unless the validated one is turned down, exactly if the modes agree at every step of the direct run |
| Preflight.ValidatesOnlyAgrees | lib/src/builder.rs:149-286 | if whatever the answers, true or not, the mode makes no difference to the executor but that validation may turn it down, then the modes agree and the runs are the same in every world |
| Preflight.GuestIsServed | core/src/preflight/util.rs:45-68 | after a finished preflight whose modes agree, the guest's validated run reads only what is recorded, and unless turned down has the committed changes |
| Preflight.GuestCanBeLeftOut | core/src/preflight/util.rs:38-71 | in every world and for every address, a program whose preflight is carried out, succeeds in its first run with the right changes, and leaves unrecorded what the guest's validated run reads |
| Blob.BitsIn | lib/src/utils.rs:272-287 | four six-bit heads are recovered from the three bytes they are reassembled to |
| Blob.StreamOfEncoded | lib/src/utils.rs:207-287 | every byte of the stream comes back from its encoding |
| Blob.DecodeEncode | lib/src/utils.rs:183-253 | decoding the encoding of any data of at most 130044 bytes gives that data |
| Blob.EncodedBytes | lib/src/utils.rs:193-287 | where every byte of the data is found in its blob: version and big-endian length first, then each byte in its place, three of each round spread over the heads of its elements |
| Blob.EncodeDecode | lib/src/utils.rs:183-253 | an accepted blob with first byte below 64 is the encoding of what it decodes to |
| Blob.OneBlobPerData | lib/src/utils.rs:183-253 | for non-empty data: a blob decodes to it if and only if, up to the two unchecked bits, it is its encoding |
| Blob.TwoBlobsOnePayload | lib/src/utils.rs:217-217 | two different blobs that decode to one byte of data |
| BlobDecoder.DecodeFieldElement | lib/src/utils.rs:255-270 | refuses exactly heads with a top bit set, panics exactly where the buffer ends too soon, else writes 31 bytes in range and no other |
| BlobDecoder.ReassembleBytes | lib/src/utils.rs:272-287 | writes the three bytes between the bodies in range and no other |
| BlobDecoder.RoundIsWhole | lib/src/utils.rs:208-241 | bodies and gaps fill each round completely and touch nothing else |
| BlobDecoder.DecodeBlobData | lib/src/utils.rs:193-253 | for a buffer of any length: panics exactly if it ends before all that is looked at, else returns what the buffer, cut off or filled up with zeros, decodes to |
| BlobDecoder.ScanPanicsIff | lib/src/utils.rs:218-240 | reading elements runs off the end exactly if the buffer ends before the last of them and all heads before the end are good |
| BlobDecoder.WholeBlobsDoNotPanic | lib/src/utils.rs:183-253 | a buffer of at least the size of a blob never makes the decoder panic |
| Distribution.DistributeTxs | lib/src/utils.rs:105-136 | one list per block with the smaller of its size and what remains; together the first transactions in order |
| RequestQueue.AddKeepsSound | reqactor/src/queue.rs:47-75 | adding keeps the books: queued keys are the pending and working ones, disjoint, each pending key once in the lane of its class, within the limit |
| RequestQueue.AdmittedExactly | reqactor/src/queue.rs:38-75 | a request is admitted exactly while there is room; a known key then changes nothing, and a new one joins the end of the lane of its class and nothing else |
| RequestQueue.NextKeepsSound | reqactor/src/queue.rs:79-88 | taking the next request keeps the books |
| RequestQueue.CompleteKeepsSound | reqactor/src/queue.rs:90-93 | completing a key keeps the books exactly if the key is not still waiting |
| RequestQueue.CompletionCanBreakTheBooks | reqactor/src/queue.rs:90-93 | a queue and a waiting key whose completion breaks the books |
| RequestQueue.NextIsFirst | reqactor/src/queue.rs:79-88 | whenever a key waits something is taken, and it is that key or one ahead of it by class or age; an aggregation never waits for another class |
| RequestQueue.Queue.Add | reqactor/src/queue.rs:47-75 | admits exactly below the limit, before looking at the key; ignores a key already queued, else appends to the lane of its class and changes no other |
| RequestQueue.Queue.Next | reqactor/src/queue.rs:79-88 | takes the head of the aggregations, else of the batches, else of the others, and marks it in progress |
| RequestQueue.Queue.Finish | reqactor/src/queue.rs:90-93 | removes the key from both sets; keeps the books exactly if it is not waiting |
| Backend.StepKeepsInv | reqactor/src/backend.rs:57-161 | every step of every actor keeps all scheduler invariants |
| Backend.SchedulerIsSafe | reqactor/src/backend.rs:57-161 | in every run: the books balance within the limit, live tasks never exceed the permits, no key has two live tasks, and within a class requests leave in the order of admission |
| Backend.DispatchIsStrict | reqactor/src/backend.rs:77-89 | in every run, whenever the loop chooses: it parks only if nothing waits, and else takes a request that every other waiting one is behind, by class or by age |
| Backend.NoOvertaking | reqactor/src/backend.rs:57-161 | over any stretch of any run, a request that is ahead of another stays ahead until it is dispatched |
| Backend.NoLostWakeup | reqactor/src/backend.rs:60-89 | in every run: a parked loop has no stored notification, no pending request but one whose submitter is about to notify, and every undrained completion belongs to a finisher that has not notified |
| Backend.SomeoneCanMove | reqactor/src/backend.rs:57-161 | no reachable state is stuck while anything is under way |
| Backend.WorkShrinks | reqactor/src/backend.rs:57-161 | every step but a submission lowers the amount of work left |
| Backend.EveryRequestCompletes | reqactor/src/actor.rs:145-161 | once submissions stop, every run ends, and one that cannot go on has nothing queued: every accepted request was completed |
| Backend.SubmissionExactly | reqactor/src/actor.rs:145-161 | a submission takes effect exactly if its key is new and there is room: it is the last of its class, and a notification follows |
| Backend.SubmittedIsServed | reqactor/src/backend.rs:57-161 | in every run, a request submitted under a new key while there is room has been dispatched once more by the time that nothing is left to do |
| ProofBatching.TakeConserves | core/src/provider/rpc.rs:296-345 | taking keys for a batch loses and repeats none |
| ProofBatching.FillBatch | core/src/provider/rpc.rs:295-345 | a batch weighs at most 1001, at least 1000 if anything is left over, and every batch makes progress |
| ProofBatching.Collect | core/src/provider/rpc.rs:353-364 | responses merge to the proofs of all keys asked so far, in order |
| ProofBatching.GetMerkleProofs | core/src/provider/rpc.rs:262-369 | for any choice of accounts: terminates; every batch but the last is full; if all batches arrive, exactly the wanted accounts were asked, the keys of each concatenate to its list, and the result holds their proofs in that order; otherwise it fails |

## Left out

- `proofs_to_tries` (lib/src/primitives/mpt.rs:1034-1115): the outer loop over accounts, which collects the state trie as StorageProofs.CollectStorage does a storage trie, but with the proofs after interleaved; ManyDeletions.DeletionsAreServed does not depend on the order in which nodes are stored.
- StorageProofs.DeletionsFromProofs: the block's writes to the trie are deletions; insertions among them can change where a path splits, and are covered by Healing and HealedRoot instead.
- `size`, `debug_rlp`, `as_data` and the serialisation of tries: they would only add easy members.
- Aliasing of trie nodes: the heap model owns its children exclusively, as Rust's boxes do.
- `validate_final_batch_blocks`, `finalize` and the consensus checks: comparisons of header fields.
- GuestBlock.IdleBlockKeepsRoot: the accounts and slots in the parent tries are encoded as the program encodes them; it would rewrite others.
- GuestBlock.ProcessedRoot: the slots in the parent tries are encoded as the program encodes them, and none is zero.
- EVM execution: an arbitrary program of reads that ends in one commit; the number of its reads is bounded, as gas bounds it.
- Repeated commits that revive a deleted account: the builder commits once after loading.
- Preflight.ExecuteTxs: the provider's failures are a finite script, so a provider that fails forever, for which the loop does not end, is not modelled; headers collected beside block hashes are not modelled.
- `get_proofs` and `get_ancestor_headers` (core/src/provider/db.rs:102-166), the LRU state cache: plumbing around the databases modelled here.
- zlib decompression, transaction decoding and KZG commitments: external libraries.
- Backend: the pool's status values, and the branch for a closed semaphore, which nothing closes.
- `Actor::queue_remove`: it completes keys that may still be waiting; RequestQueue.CompleteKeepsSound says what that does to the queue.
- ProofBatching.GetMerkleProofs: the provider answers a request for the address and keys it was asked for; the progress counter is not modelled.
- Ballots, rate limits, HTTP handlers, provers and their drivers.
