# Keystone: verified model of the enclave pager, the security monitor and the signature code

This project models three parts of Keystone in Dafny and proves what they promise. `dafny verify
dfyconfig.toml` checks all of it.

**Eyrie's paging.** The runtime encrypts pages out of enclave memory into an untrusted backing store
and brings them back. Slots of the store come from a stride walk (`SlotAllocator`), page-out counters
and Merkle nodes live in the store themselves (`PageCounters`, `NodePool`), pages are encrypted in
counter mode (`Ctr`), and a search tree of hashes under one trusted root binds each slot to what was
put there (`MerkleVerify`, `MerkleTree`). `DemandPager` puts them together. The main result on honest memory: whatever is
evicted, faulted back and stored to, user memory is a flat memory with exactly the stores applied, and faults can go on
for ever. Every page goes out under the counter found for its slot plus one, so in 2^64 operations no counter seals two
pages of one slot (`RunAll`). The counter is stored with its lowest byte first and counted up from the other end, so two
counters share a key block exactly if they are close when read backwards: never within 2^48 page-outs of a slot, unless
its counter wraps (`KeysOnce`, `BlocksMeet`; `PageOuts`).

Against an adversary who owns the store, with only the root trusted: under a root that stands for a tree, a page that is
accepted is the page that was stored, unless two inputs with one hash are at hand (`AcceptedPage`, `SwapIn`). Insertion
is weaker. It never compares what it reads with the old root (`InsertIgnoresDigest`), so the new root stands for the
updated tree exactly if the reads were that tree's (`InsertCommits`), and memory can make it stand for anything
(`ForgedInsert`). An exchange verifies the slot before it inserts, so however the store is rewritten between calls,
the page that comes in is the page last bound to the slot. Whether the page that goes out is bound is another matter.
Child addresses are not hashed, and the allocator's lists lie in the store: whoever rewrites it can have the new leaf
handed out where a node of the slot's path or a sibling is stored. The slot is bound anew if and only if that is not so
(`StoredCommits`, `VerifiedInsert`). If it is so, the insertion is refused, nobody looks at its result, and the slot
stays bound to the page that came in (`StaleSwap`); if the node is the topmost one, the new root stands for the new leaf
alone (`LostSwap`). `SwapsFaithful` follows whole runs with exactly the bindings that went through. A binding whose
search path has 32 nodes or more is dropped without an error (`BoundIffReached`). An eviction to a new slot inserts
without verifying, and nothing of the kind holds for it (`UntrustedStore`, `UntrustedSwaps`, `MerkleUntrusted`,
`MerkleCommit`, `MerkleStatic`, `MerkleStored`, `MerkleAliased`).

`TableTraversal` models how a page to evict is found in the page table. `PageTable` and `AddressSpace` model the build
without paging: three-level tables and the free list, where each frame is always in exactly one role, every operation
changes the translation of one page, and the translation is the one the hardware makes (`HardwareFinds`).

**The security monitor.** A state machine over any number of harts, whose steps are the enclave calls
and interrupts (`Monitor`), and a class that performs them as the source does and is proved to refine
it (`MonitorImpl`). Physical memory protection is modelled down to the encoding of the registers
(`Pmp`, `Regions`, `HartPmp`). The main results over every run, without a condition: enclaves
go through their life cycle only as intended (`MonitorCycle`); the memory of live enclaves and of the monitor never
meets (`MonitorMemory`); contexts survive being switched out and in, on any hart, each register and each status field,
but for the interrupts a host is handed on its way back (`MonitorContext`); and every call answers the error number it
should (`MonitorAnswers`).

That each hart reaches exactly the memory it should, and that failed creations are undone, has an exact condition. The
register that all shared regions use can be handed out as a private one after a shared region has been freed. A
creation keeps harts isolated, whatever it returns, if and only if it is refused before it writes a register or its
private region stays off that register (`CreateIsolates`); a refused creation leaves the harts as they were, and a
destruction gives back what the creation took, if and only if the same holds (`CreateUndone`, `CreateThenDestroy`); and
a run isolates every hart at every point if and only if every creation in it meets the condition (`RunIsolated`).
`BottomCloses` and `BottomLeaks` say what the host loses and what it reaches otherwise, and `IsolationCanFail` and
`UndoCanFail` are runs from boot that get there.

**Ed25519 and SHA-3.** The boot code's signatures, from limbs to protocol: field and scalar arithmetic in
C integers without overflow (`Field`, `FieldBytes`, `FieldPowers`, `ScalarLimbs`, `ScalarReduce`,
`ScalarMulAdd`), the point formulas and their limb bounds (`GroupFormulas`), both scalar
multiplications (`SlidingWindow`, `ScalarMult`), signing and verifying (`Signature`), and the sponge
over the permutation in place (`Sponge`, `Keccak`, `Sha3`), whose steps are those of FIPS 202 bit by bit and can all be
undone (`Lanes`, `KeccakBits`).

Where comments and code disagree the model follows the code: `fe_add` is documented for limbs within
1.1 of their size but is used, safely, on larger ones; the bound `fe_tobytes` states is on the
value, while what it needs is a bound on the limbs, and its quotient lies between -2 and 1; the depth
guard of `merk_insert` compares with a value its loop never reaches; and the walk for a page to evict extends the sign
of upper-half addresses only behind the first entry it should do so for (`RootSees`).

## Model

| member | source | states |
|---|---|---|
| `SlotAllocator.GcdLoop` | runtime/mm/page_swap.c:48-56 | the remainder loop returns the greatest common divisor: a divisor of both that every common divisor divides |
| `SlotAllocator.EuclidIsGcd` | runtime/mm/page_swap.c:48-56 | the recursion the loop is tied to is the greatest common divisor in the order of divisibility |
| `SlotAllocator.Bezout` | runtime/mm/page_swap.c:48-56 | that divisor is an integer combination of the two numbers; the step from coprime to distinct slots rests on it |
| `SlotAllocator.FindCoprime` | runtime/mm/page_swap.c:58-65 | a stride the search accepts is coprime to the page count and between its half and it; the search keeps drawing exactly while no draw is coprime |
| `SlotAllocator.SearchCanEnd` | runtime/mm/page_swap.c:58-65 | for every page count of at least 2 some random number ends the search, even and odd counts alike |
| `SlotAllocator.CoprimeReturn` | runtime/mm/page_swap.c:21-40 | a coprime stride comes back to its start only after a multiple of n steps |
| `SlotAllocator.IndexInjective` | runtime/mm/page_swap.c:21-40 | the first n positions of the stride walk are pairwise distinct |
| `SlotAllocator.FullTurn` | runtime/mm/page_swap.c:21-40 | after exactly n steps the walk is at offset 0 again, which is the end the allocator looks for |
| `SlotAllocator.WalkDistinct` | runtime/mm/page_swap.c:21-40 | all pages handed out before the walk closes are distinct, page-aligned and inside the backing region |
| `SlotAllocator.Slots.constructor` | runtime/mm/page_swap.c:67-76 | pswap_init starts the walk at offset 0 with n - 1 pages to give |
| `SlotAllocator.Slots.Alloc` | runtime/mm/page_swap.c:21-40 | a page never handed out before, aligned and in the region, or 0 exactly when n - 1 pages are out; the address arithmetic stays below 2^64 |
| `NodePool.Pool.AllocNode` | runtime/crypto/merkle.c:72-87 | a node that is not in use; a new backing page is taken exactly if no listed page has a free node, and the nodes in use grow by exactly it |
| `NodePool.Pool.DropFull` | runtime/crypto/merkle.c:72-87 | full pages leave the front of the list without any node changing its owner |
| `NodePool.Pool.AddPage` | runtime/crypto/merkle.c:34-49 | a new backing page joins the list with every node but its header free |
| `NodePool.Pool.Reserve` | runtime/crypto/merkle.c:53-70 | the lowest set bit is cleared and names the node given out; bitmap and free count stay equal |
| `NodePool.Pool.FreeNode` | runtime/crypto/merkle.c:89-106 | exactly the given node stops being in use and is free again, and its page is on the list |
| `NodePool.LowestBit` | runtime/crypto/merkle.c:53-70 | the count of trailing zeros is the least member of the bitmap |
| `MerkleVerify.MerkVerify` | runtime/crypto/merkle.c:151-192 | the loop, with the uninitialised left child it starts from, computes the run the soundness theorem speaks of |
| `MerkleVerify.EncInjective` | runtime/crypto/merkle.c:108-149 | what is hashed for a node determines its key and its digest |
| `MerkleVerify.PairBytes` | runtime/crypto/merkle.c:108-149 | for a node with two children the 80 bytes hashed are key and digest of the left one and then of the right one, keys with the lowest byte first |
| `MerkleVerify.DescendFinds` | runtime/crypto/merkle.c:186-190 | the search by keys ends in the leaf of a stored key, and in no other leaf with that key |
| `MerkleVerify.LayerSound` | runtime/crypto/merkle.c:108-192 | one accepted layer over an authentic node read the committed children, or two different inputs with one digest are in hand; a leaf cannot pass for an interior node |
| `MerkleVerify.LayersSound` | runtime/crypto/merkle.c:151-192 | the same from any authentic node down, when memory answers every read as it likes |
| `MerkleVerify.LayersStable` | runtime/crypto/merkle.c:168-191 | a finished run is the same however much longer it is observed |
| `MerkleVerify.VerifySound` | runtime/crypto/merkle.c:151-192 | under a trusted root and untrusted memory, a digest is accepted for a stored key only if the committed tree stores that digest, and the loop ends, or a hash collision among the inputs of this run and of the tree is in hand |
| `MerkleVerify.AcceptedPage` | runtime/crypto/merkle.c:151-192 | the same for what was hashed: a page accepted for a stored key is the very page that was stored, or a collision is in hand |
| `MerkleVerify.DescendLayers` | runtime/crypto/merkle.c:168-191 | the descent loop computes the layers of that run |
| `MerkleUntrusted.MerkInsert` | runtime/crypto/merkle.c:228-340 | insertion while memory answers every read as it likes: the walk, the checks it makes and those it does not, the splice that is read back, and the new root |
| `MerkleUntrusted.OneRound` | runtime/crypto/merkle.c:291-333 | one round of the upward loop, read by read: the sibling check only where there are two children, and the assertion on the link |
| `MerkleUntrusted.WalkDown` | runtime/crypto/merkle.c:249-263 | the array of addresses under such memory, cut at its length |
| `MerkleCommit.InsertIgnoresDigest` | runtime/crypto/merkle.c:277-337 | the digest in the old root has no influence on the outcome |
| `MerkleCommit.NewRoot` | runtime/crypto/merkle.c:277-337 | the digest in the new root is that of the topmost node as computed from the reads |
| `MerkleCommit.RootCommits` | runtime/crypto/merkle.c:228-340 | the new root stands for a tree if and only if the reads that entered its hashes, each parent key and side, each sibling and the spliced node, are that tree's, or a collision is in hand |
| `MerkleCommit.InsertCommits` | runtime/crypto/merkle.c:228-340 | the same for the updated tree an insertion should lead to |
| `MerkleStatic.ShownInsert` | runtime/crypto/merkle.c:228-340 | memory that shows any tree along the search path makes the new root stand, whatever the old root stood for, for that tree with the key inserted if the path has fewer than 32 nodes, and for that tree as it was if it has more |
| `MerkleStatic.BoundIffReached` | runtime/crypto/merkle.c:252-275 | a new key is bound if and only if its path has fewer than 32 nodes; otherwise the map stays as it was, and the call still returns 0 |
| `MerkleStatic.AcceptedPath` | runtime/crypto/merkle.c:151-192 | a verification that accepts a page has been shown the committed tree along the whole path, or a collision is in hand |
| `MerkleStatic.TwinTrees` | runtime/crypto/merkle.c:108-149 | trees with one digest have the same keys, or a collision is in hand |
| `MerkleStored.MerkInsertStored` | runtime/crypto/merkle.c:228-340 | insertion with its own writes in the memory it reads: leaf, new parent, headers of the node allocator, and the write-back after every round |
| `MerkleStored.Unaliased` | runtime/crypto/merkle.c:331-333 | a node of the search path is not stored where a node above it or the sibling of one is, or two inputs of the tree collide |
| `MerkleStored.WriteBacks` | runtime/crypto/merkle.c:331-333 | above the splice each node is written back where no later round reads, so the rounds compute what they would compute without write-backs |
| `MerkleAliased.StoredIsRun` | runtime/crypto/merkle.c:228-340 | an insertion with its own writes is one run against memory that answers every read as it likes |
| `MerkleAliased.StoredRoot` | runtime/crypto/merkle.c:228-340 | so for every memory, allocator and node handed out the new root stands for a tree exactly if the reads that entered its hashes are that tree's, or a collision is in hand |
| `MerkleAliased.Undisturbed` | runtime/crypto/merkle.c:228-340 | memory that shows a tree, and a node handed out that the insertion does not read: the new root stands for the tree with the key inserted, or for the tree as it was on a path of 32 nodes or more |
| `MerkleAliased.Blocked` | runtime/crypto/merkle.c:301-312 | a node handed out that is on the path or a sibling there, but not the topmost one: refused by a sibling check |
| `MerkleAliased.TopTaken` | runtime/crypto/merkle.c:291-337 | the topmost node handed out: no check is made, and the new root stands for the new leaf alone |
| `MerkleAliased.StoredCommits` | runtime/crypto/merkle.c:228-340 | exactly when an insertion into memory that shows a tree leads to the updated one: iff the node handed out is off everything it reads, or the tree is the one leaf it overwrites |
| `MerkleAliased.VerifiedInsert` | runtime/mm/page_swap.c:198-211 | a slot verified and then bound anew while only the call writes memory: what was verified is what was bound, the slot is bound anew exactly under that condition, and refused or bound alone otherwise, unless inputs collide |
| `UntrustedStore.SwapIn` | runtime/mm/page_swap.c:184-207 | with slot, counter word and nodes all the adversary's, a page that passes the check is the page put out last, and slot and counter are untouched, or a collision is in hand |
| `UntrustedStore.SwapEpm` | runtime/mm/page_swap.c:179-216 | an exchange in the order of the source, for every store: a page that fails the check stops before anything is bound; one that passes is the page last bound; and with the headers of the allocator off the path the slot is bound to the page that went out exactly if the node handed out is off it too, while a refused insertion leaves root and bindings as they were |
| `UntrustedStore.SwapStep` | runtime/mm/page_swap.c:179-216 | one exchange under a trusted root: what comes in is what was bound last; whether the slot is bound anew is decided exactly; and unless the topmost node was handed out the root is again one that can be trusted |
| `UntrustedStore.SwapsFaithful` | runtime/mm/page_swap.c:179-216 | any number of exchanges against an adversary who rewrites the whole store between calls: every page accepted is the page last bound to its slot, and exactly the bindings whose node is off the path go through, up to the first collision, header on the path or topmost node handed out |
| `UntrustedSwaps.StaleSwap` | runtime/mm/page_swap.c:198-213 | an input off the condition: the slot's leaf is stored at the node handed out; the old page passes, the insertion is refused, the root still accepts the old page, and never the new one without a collision |
| `UntrustedSwaps.LostSwap` | runtime/crypto/merkle.c:228-337 | the topmost node is handed out: the new root accepts the page that went out for the other slot |
| `UntrustedSwaps.HeaderSwap` | runtime/crypto/merkle.c:53-87 | a header of the allocator is where a sibling is: refused, although the node handed out is a new one |
| `UntrustedStore.ForgedInsert` | runtime/crypto/merkle.c:291-337 | an insertion without a verification before it can be made to leave a root that accepts any page for any other slot, whatever the root stood for |
| `MerkleTree.VerifyComplete` | runtime/crypto/merkle.c:151-192 | over honest memory the check ends and accepts exactly the digest of the leaf the search ends in, which for a stored key is the stored digest |
| `MerkleTree.LayersComplete` | runtime/crypto/merkle.c:168-191 | the same from any subtree down |
| `MerkleTree.InsertContents` | runtime/crypto/merkle.c:228-340 | insertion is map update: the new key is bound, every other binding stays |
| `MerkleTree.InsertOrdered` | runtime/crypto/merkle.c:195-340 | insertion keeps the search order of keys |
| `MerkleTree.InsertPlaced` | runtime/crypto/merkle.c:195-223 | after insertion the tree uses the old nodes, less an overwritten leaf, plus the new leaf and, on a split, the new parent |
| `MerkleTree.SameShape` | runtime/crypto/merkle.c:195-202 | overwriting a stored key changes the length of no search path |
| `MerkleTree.PercolateStep` | runtime/crypto/merkle.c:277-337 | writing the node in hand completes the next larger subtree of the inserted tree |
| `MerkleTree.Walk` | runtime/crypto/merkle.c:249-263 | the array of visited nodes is the root followed by the search path, and its last entry is the leaf, or the 31st node of a longer path |
| `MerkleTree.RelinkInserted` | runtime/crypto/merkle.c:291-329 | replacing a child in its parent and rehashing gives the parent of the inserted tree, and the sibling check in between passes |
| `MerkleTree.Climb` | runtime/crypto/merkle.c:277-337 | the upward rounds never fail and end with the whole inserted tree in memory under a root that commits to it |
| `MerkleTree.FirstRound` | runtime/crypto/merkle.c:291-333 | the round that follows the splice writes the spliced node and takes its rewritten parent in hand |
| `MerkleTree.Store.constructor` | runtime/crypto/merkle.c:238-247 | an empty store holds the empty map |
| `MerkleTree.Store.Verify` | runtime/crypto/merkle.c:151-192 | while memory is honest, a stored key is accepted with exactly its stored digest; an empty store accepts nothing |
| `MerkleTree.Store.Splice` | runtime/crypto/merkle.c:195-223 | an equal key replaces its leaf and frees the old node; another key gets a new parent over both, ordered by key |
| `MerkleTree.Store.Insert` | runtime/crypto/merkle.c:228-340 | never fails and keeps order, hashes and node ownership; on a path of fewer than 32 nodes it changes the map at exactly one key, present before or not, and on a longer one it leaves the map as it was and loses one node; it takes one backing page exactly if too few nodes are free, and overwriting a key leaves a free node and every search path as long as it was |
| `MerkleTree.Retrace` | runtime/crypto/merkle.c:275-340 | the upward loop on a path that was cut off writes every node and the root back as they were |
| `MerkleTree.HoldsInserted` | runtime/crypto/merkle.c:228-340 | the inserted tree under its new root is again a sound store, one map update further |
| `Ctr.IncrementIv` | runtime/crypto/aes.c:338-348 | the last bytes of the block are a big-endian counter that grows by one modulo 256^size; the other bytes stay |
| `Ctr.BeRoundTrip` | runtime/crypto/aes.c:338-348 | the big-endian bytes of a number determine it |
| `Ctr.CtrInverse` | runtime/crypto/aes.c:352-382 | decrypting what was encrypted under the same counter block gives the data back, for every length and every block cipher |
| `Ctr.CtrByte` | runtime/crypto/aes.c:352-374 | byte k is combined with byte k mod 16 of the image of the counter block that is k / 16 further, as a big-endian number |
| `Ctr.XorStream` | runtime/crypto/aes.c:352-374 | the block loop and the short last block make every byte the exclusive or with the key byte of its own position |
| `Ctr.EncryptCtr` | runtime/crypto/aes.c:352-382 | the output, which may be the input buffer, holds the counter-mode image in its first bytes and is unchanged behind them |
| `Ctr.XorBuf` | runtime/crypto/aes.c:251-256 | exactly the given stretch changes, by exclusive or with the key block |
| `Vm.PteRoundTrip` | runtime/include/mm/vm.h:35-66 | an entry gives back its page number and every flag but the valid bit, which is what the builder says |
| `Vm.CreatedFlags` | runtime/include/mm/vm.h:35-44 | bit by bit: a built entry has the flags it was asked for and the valid bit, or all of them without it |
| `Vm.PointerFlags` | runtime/include/mm/vm.h:46-49 | a pointer to a table has the valid bit and no other flag, so no hardware takes it for a leaf |
| `Vm.PteUserKept` | runtime/mm/paging.c:209-258 | swapping out and in keeps an entry a user entry |
| `PagedMemory.CryptInverse` | runtime/mm/page_swap.c:127-161 | decrypting a slot under its counter gives the page that was encrypted under it |
| `PagedMemory.CryptPage` | runtime/mm/page_swap.c:127-161 | encryption and decryption of a page through byte buffers are the counter-mode image under the page-out counter |
| `PageOuts.IvBytes` | runtime/mm/page_swap.c:131-139 | the first counter block of a page is eight zero bytes and the counter in memory order, which counter mode then reads as one big-endian number |
| `PageOuts.BlocksShared` | runtime/crypto/aes.c:338-374 | pages sealed under two counters share a counter block if and only if the numbers the counters are read as are less than 256 apart |
| `PageOuts.BlocksApart` | runtime/mm/page_swap.c:131-139 | so counters less than 2^48 apart share none, as long as the larger one is not past the wrap |
| `PageOuts.BlocksMeet` | runtime/mm/page_swap.c:137-192 | past the wrap they can: 2^64 - 256 and 1 do |
| `PageOuts.LoggedMore` | runtime/mm/page_swap.c:190-213 | a page-out under the counter found and one keeps the log: the store holds what was sealed into it, and each slot has the counter of any of its page-outs and one more for each that followed |
| `PageOuts.CounterGrows` | runtime/mm/page_swap.c:190-213 | between two page-outs to a slot its counter grows, modulo 2^64, by the number of page-outs to it |
| `PageOuts.CounterOnce` | runtime/mm/page_swap.c:190-213 | no counter seals two pages of one slot within 2^64 page-outs |
| `PageOuts.KeysOnce` | runtime/mm/page_swap.c:127-213 | over any log, two page-outs to one slot less than 2^48 apart share no key block, unless the counter wraps in between |
| `PagedMemory.EvictTransparent` | runtime/mm/page_swap.c:179-216 | evicting to a slot no entry names changes no page of the flat memory and names nothing twice |
| `PagedMemory.ExchangeTransparent` | runtime/mm/page_swap.c:179-216 | exchanging a resident and a swapped-out page in the latter slot changes no page of the flat memory |
| `PagedMemory.StoreView` | runtime/mm/paging.c:219-264 | a store to a resident page changes that byte of the flat memory and no other, and no swapped-out page |
| `PageCounters.IndexDistinct` | runtime/mm/page_swap.c:78-93 | different backing pages have different counters |
| `PageCounters.Counters.Locate` | runtime/mm/page_swap.c:78-93 | the counter of a page is found; a page is allocated and randomly filled exactly if there was none; no existing counter changes; a new counter is the random word drawn for it |
| `PageCounters.Counters.Write` | runtime/mm/page_swap.c:213 | storing through the pointer changes exactly one page counter |
| `Pager.SlotRoundTrip` | runtime/mm/paging.c:206-243 | the page number put into an entry leads back to the slot, with the wrapping subtraction of the source |
| `Pager.PageBytesInjective` | runtime/mm/page_swap.c:163-173 | what is hashed for a page determines the page and its counter |
| `Pager.PageBytesAre` | runtime/mm/page_swap.c:163-173 | the bytes hashed are the 4096 of the page and then the eight of the counter, the lowest first |
| `Pager.PickOnce` | runtime/mm/paging.c:81-135 | over the list of leaves the pager keeps, one traversal stops at the count-th resident user page, or reports how many are left to count |
| `Pager.Pick` | runtime/mm/paging.c:137-153 | three traversals pick the count-th resident user page around the cycle, or nothing when the count exceeds three rounds |
| `TableTraversal.Traverse` | runtime/mm/paging.c:81-135 | the recursion over the levels of the table in memory, with superpages, empty entries and the sign extension of the root, returns the address of the count-th resident user page in table order |
| `TableTraversal.PickVictim` | runtime/mm/paging.c:137-153 | three such traversals pick around the cycle of resident user pages |
| `TableTraversal.RootSees` | runtime/mm/paging.c:80-132 | the walk comes by exactly the entries of the tables below the root that are not empty, large pages included, each with the address computed from its indices; the sign extension sets in one followed entry late |
| `TableTraversal.AddressOf` | runtime/mm/paging.c:100-121 | that address is the index triple as a page number, and with the prefix its sign extension |
| `TableTraversal.PageSeen` | runtime/mm/paging.c:80-132 | so a page of the lower half, where user memory is, is seen at its own address |
| `TableTraversal.AccessFlags` | runtime/mm/paging.c:104-105 | the leaf test is of the readable, writable and executable bits |
| `TableTraversal.UsersAreResidents` | runtime/mm/paging.c:81-135 | the leaves the recursion counts are the resident pages of the pager's list |
| `TableTraversal.PickAgrees` | runtime/mm/paging.c:137-153 | the walk over the tables and the walk over the list pick the same page |
| `Pager.EvictAuthentic` | runtime/mm/paging.c:179-217 | after an eviction the tree again binds every swapped-out page to the digest of its contents and counter |
| `Pager.ExchangeAuthentic` | runtime/mm/paging.c:179-264 | the same after an exchange |
| `DemandPager.DemandPager.constructor` | runtime/mm/paging.c:33-79 | with every user page resident and the store untouched the invariant holds |
| `DemandPager.DemandPager.SwapEpm` | runtime/mm/page_swap.c:179-216 | the frame goes encrypted into the slot under the counter found there plus one, which is stored; the slot comes decrypted under the counter found into the frame; the tree binds the new digest, and the integrity check never fails on honest memory; exactly the backing pages it takes are stated, and the log of page-outs grows by this one |
| `DemandPager.DemandPager.Transfer` | runtime/mm/page_swap.c:184-207 | both copies are made before the frame is overwritten, and the digest check is of the page brought in |
| `DemandPager.DemandPager.Choose` | runtime/mm/paging.c:159-172 | the victim is a resident user page; none is found exactly when the drawn count runs past three traversals |
| `DemandPager.DemandPager.EvictAndFree` | runtime/mm/paging.c:179-217 | the flat memory stays; the frame returned was a user page frame and no entry names it any more; it went out to the next slot under the counter found there plus one; it aborts exactly without user pages |
| `DemandPager.DemandPager.Inspect` | runtime/mm/paging.c:219-248 | exactly the swapped-out user pages below the runtime go on to the eviction |
| `DemandPager.DemandPager.BringIn` | runtime/mm/paging.c:179-264 | the faulting page is resident, the victim swapped out to its slot under the next counter, and the flat memory unchanged; no backing page is taken if a node is free |
| `DemandPager.DemandPager.HandleFault` | runtime/mm/paging.c:219-264 | the flat memory stays in every case; the fault is handled exactly for a swapped-out user page when a victim is found, and one page goes out to that slot under its next counter; otherwise nothing changes |
| `DemandPager.DemandPager.UserWrite` | runtime/mm/paging.c:219-264 | a store faults its page in first and then changes exactly its byte, or ends the user without a change |
| `DemandPager.DemandPager.SteadyFault` | runtime/mm/paging.c:219-264 | with one free node or one free page, every fault has the room it needs |
| `DemandPager.DemandPager.RunAll` | runtime/mm/paging.c:179-264 | paging refines a flat memory: after any sequence of evictions, faults and user stores every user page holds what it held with exactly the stores applied; the run ends early only at an operation without the backing pages it takes, with a search path too long, or at a store no page can be brought in for, and faults and stores alone only for the last reason if one node or one page is free; and in up to 2^64 operations no counter seals two pages of one slot |
| `PageTable.SplitInjective` | runtime/mm/mm.c:35-51 | different pages of the 39-bit space have different index triples |
| `PageTable.SplitWhole` | runtime/mm/mm.c:35-51 | the first index is the most significant: the three of them are the page number |
| `PageTable.HardwareFinds` | runtime/mm/mm.c:24-59 | the map the tables stand for is what the address translation of the hardware finds: the leaf at the lowest level if it is valid and readable or executable, else a page fault |
| `PageTable.AddDir` | runtime/mm/mm.c:24-33 | hanging a blank page into the root maps and unmaps nothing |
| `PageTable.AddTab` | runtime/mm/mm.c:24-33 | the same for a second-level table |
| `PageTable.SetLeaf` | runtime/mm/mm.c:70-82 | overwriting a leaf entry changes exactly that page |
| `AddressSpace.Space.constructor` | runtime/loader-binary/loader-binary.c:9-52 | an empty root table and an empty free list: nothing is mapped, and every other page can go onto the list |
| `AddressSpace.Space.SpaGetZero` | runtime/mm/freemem.c:21-59 | the oldest free page, zeroed, or nothing exactly when the list is empty |
| `AddressSpace.Space.SpaPut` | runtime/mm/freemem.c:62-83 | the page goes to the end of the list, and no page off the list changes |
| `AddressSpace.Space.SpaInit` | runtime/mm/freemem.c:94-111 | the pages of the region are on the list in order |
| `AddressSpace.Space.Find` | runtime/mm/mm.c:35-59 | the leaf table of a page when all levels are there, else the table and index where one is missing |
| `AddressSpace.Space.Extend` | runtime/mm/mm.c:24-33 | one more level from a zeroed page, no mapping changed |
| `AddressSpace.Space.WalkCreate` | runtime/mm/mm.c:24-67 | the restarting walk ends, uses exactly one free page per missing level, changes no mapping, and fails exactly when too few are free |
| `AddressSpace.Space.MapPage` | runtime/mm/mm.c:70-82 | an unmapped page is mapped to the frame, a mapped one is refused, and every other page translates as before; each frame stays in one role if and only if nobody had this one |
| `AddressSpace.Space.AllocPage` | runtime/mm/mm.c:86-110 | an unmapped page gets the next free frame, zeroed and owned by nobody else; every other page keeps its entry and contents |
| `AddressSpace.LeafFlags` | runtime/mm/mm.c:80-104 | a mapped page has the flags the caller asked for and is valid, accessed and dirty; no other flag is set |
| `AddressSpace.Space.FreePage` | runtime/mm/mm.c:129-154 | a mapped user page loses its mapping and its frame joins the free list; every other page and every frame in use stay |
| `AddressSpace.Space.AllocFree` | runtime/mm/mm.c:86-154 | a page allocated and freed again: that succeeds exactly if it was asked for as a user page, its frame is then the last of the free list, and every other page is as it was |
| `AddressSpace.Space.Translate` | runtime/mm/mm.c:199-209 | the address the table stands for, or 0 |
| `AddressSpace.TranslationMapped` | runtime/mm/mm.c:70-209 | the address of a page mapped to a frame is that of the frame at the same offset |
| `AddressSpace.TranslationIsHardware` | runtime/mm/mm.c:199-209 | it is the address the hardware uses, wherever the hardware finds one |
| `AddressSpace.Space.TestVaRange` | runtime/mm/mm.c:183-197 | the length of the leading run of pages without an entry |
| `AddressSpace.TranslationChanges` | runtime/mm/mm.c:70-209 | a changed leaf changes the translation of no other page |
| `AddressSpace.OwnedTable` | runtime/mm/mm.c:24-33 | a free page that becomes a table is again in exactly one role |
| `AddressSpace.OwnedMapped` | runtime/mm/mm.c:86-110 | a newly mapped frame is again in exactly one role |
| `AddressSpace.OwnedCleared` | runtime/mm/mm.c:129-154 | a cleared leaf leaves its frame without any role, so it may be freed |
| `Pmp.NapotRoundTrip` | sm/src/pmp.c:71-82 | the register value of an aligned power-of-two region decodes to exactly that region |
| `Pmp.WholeCovers` | sm/src/pmp.c:71-82 | the all-ones value covers every address |
| `Pmp.TorRange` | sm/src/pmp.c:71-82 | a top-of-range pair of registers covers exactly the bytes of a page-aligned region |
| `Pmp.SetMatches` | sm/src/pmp.c:239-281 | programming a region makes its entry match exactly the bytes of the region |
| `Regions.Search` | sm/src/pmp.c:117-147 | the lowest run of clear bits of the wanted width that ends in range, or none when there is none |
| `Regions.SearchUnset` | sm/src/pmp.c:117-132 | the shifting loop finds exactly that run |
| `Regions.InitKeeps` | sm/src/pmp.c:322-486 | a new region keeps the regions disjoint and the registers of private regions apart, as long as the search stays off the bottom register |
| `Regions.InitResult` | sm/src/pmp.c:322-486 | success adds one entry at a free index and marks its registers; failure changes nothing |
| `Regions.OneBitIsPow2` | sm/src/pmp.c:473-475 | the test that a size has one bit holds of the powers of two and of nothing else |
| `Regions.FreeKeeps` | sm/src/pmp.c:430-452 | freeing unmarks only the registers of the freed region and keeps the invariant |
| `Regions.RegionTable.DetectOverlap` | sm/src/pmp.c:156-186 | reports exactly whether the range meets a region that excludes overlap, with the end computed modulo 2^64 |
| `Regions.RegionTable.Init` | sm/src/pmp.c:454-486 | the checks, their order and their error codes, against the state function the theorems are about |
| `Regions.RegionTable.PlaceRegion` | sm/src/pmp.c:322-428 | both region kinds after their assertions: which register, which index, which error |
| `Regions.RegionTable.Free` | sm/src/pmp.c:430-452 | an undefined region is refused; a defined one is cleared |
| `HartPmp.CoveredByOwner` | sm/src/pmp.c:239-281 | above the bottom register an entry matches only the addresses of the private region that owns it |
| `HartPmp.InsidePrivate` | sm/src/pmp.c:239-281 | an address of a private region is decided by that region entry: only its owner gets in |
| `HartPmp.OutsidePrivate` | sm/src/pmp.c:239-281 | any other address is decided by the bottom register |
| `HartPmp.HostReach` | sm/src/pmp.c:239-281 | a hart outside enclaves reaches exactly what no private region holds |
| `HartPmp.EnclaveReach` | sm/src/pmp.c:239-281 | a hart inside an enclave reaches exactly its private and its shared region |
| `HartPmp.EnterKeeps` | sm/src/enclave.c:78-85 | closing the system region, then opening the private and the shared one, in this order, leaves the hart with exactly the enclave access |
| `HartPmp.LeaveKeeps` | sm/src/enclave.c:96-103 | closing both and opening the system region, in this order, gives the host access back |
| `Context.SwapState` | sm/src/thread.c:29-78 | registers and supervisor registers change places, and slot 0 records whether the next return keeps a0 |
| `Context.StatusFields` | sm/src/thread.c:17-26 | SIE, SPIE, SPP, MPP, FS, SUM and MXR, at the positions of the privileged architecture, are those of the saved word whatever the current one has; any other bit is set if it is in either |
| `Context.StatusWhole` | sm/src/thread.c:19-21 | these fields and the other bits are the whole word |
| `Context.DeliveredBits` | sm/src/enclave.c:115-128 | the host's sip gains exactly the supervisor bits of the pending machine interrupts, and is unchanged if and only if each was set already |
| `Context.Deliver` | sm/src/enclave.c:115-128 | the three conditional stores do that |
| `Context.PcRoundTrip` | sm/src/sbi_trap_hack.c:99-112 | the interrupt path winding back by 4 and the epilogue adding 4 cancel, also around 2^64 |
| `Monitor.ArgsMeaning` | sm/src/enclave.c:276-323 | the wrapping comparisons accept exactly non-empty ranges that end below 2^64 with the three sections in order inside the private one |
| `Monitor.FreeEid` | sm/src/enclave.c:175-199 | the lowest invalid entry, or none when every entry is in use |
| `Monitor.SlotIndex` | sm/src/enclave.c:209-218 | the first region slot of the kind, or none |
| `MonitorCycle.EffectLife` | sm/src/enclave.c:338-602 | every call, whatever it is given and whatever it returns, keeps the life cycle's invariant: an enclave is invalid, fresh, stopped or running, it counts one thread exactly while it runs, and exactly one hart is then inside it |
| `MonitorCycle.RunLife` | sm/src/enclave.c:338-602 | the same over every run of calls on any harts |
| `MonitorCycle.LeavingSucceeds` | sm/src/enclave.c:531-578 | from inside an enclave stop, exit and an interrupt never fail, and the enclave is stopped afterwards |
| `MonitorAnswers.Refused` | sm/src/enclave.c:338-602 | every call's error number: calls of the wrong side are prohibited, exactly a fresh enclave can be run, a stopped one resumed and either destroyed, a creation answers its first failed check, and a refused call changes nothing |
| `MonitorAnswers.NotRunning` | sm/src/enclave.c:531-578 | without the invariant too: stop and exit of an enclave that does not run are refused and change nothing |
| `MonitorCycle.Transition` | sm/src/enclave.c:338-602 | the life cycle has exactly these edges: creation, first run, stop or exit, resume, destruction |
| `MonitorCycle.IdleRun` | sm/src/enclave.c:508-602 | an enclave that stays fresh or stopped through a run keeps its whole record |
| `MonitorCycle.OccupiedRun` | sm/src/enclave.c:508-602 | while a hart stays inside an enclave no run of the other harts changes its record |
| `MonitorCycle.RunsOnce` | sm/src/enclave.c:508-529 | once run and until destroyed an enclave is never fresh again, so a second run fails |
| `MonitorMemory.StepMemory` | sm/src/enclave.c:338-506 | every call, whatever registers it is given and whatever it returns, keeps each live enclave the holder of two regions of its own |
| `MonitorMemory.RunApart` | sm/src/enclave.c:338-506 | over every run, without any condition, no two live enclaves share an address, none shares one with the monitor, and private memory and shared window of one enclave are apart |
| `MonitorMemory.InvMemory` | sm/src/enclave.c:338-506 | the invariant of isolation contains these two |
| `MonitorInv.InvIsolates` | sm/src/pmp.c:239-281 | in every state that keeps the invariant, every hart reaches exactly its own memory: a host what is nobody else's, an enclave its private and shared region |
| `MonitorInv.EnterInv` | sm/src/enclave.c:42-90 | entering an enclave keeps the invariant |
| `MonitorInv.LeaveInv` | sm/src/enclave.c:92-136 | leaving one keeps it, and the enclave a hart is in is always running |
| `MonitorCreate.SetThenUnset` | sm/src/pmp.c:239-311 | closing a new region on a hart and unsetting it again restores the registers, if they were the region's own |
| `MonitorCreate.CreateKept` | sm/src/enclave.c:338-441 | a creation that went through with registers of its own keeps the invariant |
| `MonitorCreate.BothPlaced` | sm/src/enclave.c:371-378 | both regions of a creation: the shared one is on the bottom register, and the private one has registers of its own exactly if the search for them stayed off that one |
| `MonitorLife.TakenBack` | sm/src/enclave.c:427-441 | unwinding a creation, or destroying what it made, gives back the region table but for the mark of the bottom register, and the harts if and only if the private region stayed off that register |
| `MonitorLife.PlacedThenRefused` | sm/src/enclave.c:380-441 | a creation refused by the platform or the measurement returns their code; the harts are as before, and the invariant holds, if and only if it spared the bottom register |
| `MonitorLife.CreateUndone` | sm/src/enclave.c:338-441 | a creation that fails, at any of its steps, leaves the table as it was but for the mark of the bottom register, and every live enclave; it leaves the harts as they were, and keeps the invariant, if and only if it is refused before it writes a register or its private region stays off the bottom one |
| `MonitorLife.Created` | sm/src/enclave.c:338-441 | what a creation that went through did, in terms of the two region requests and the lowest free identifier |
| `MonitorLife.CreateInv` | sm/src/enclave.c:338-441 | whatever it returns, a creation keeps the invariant if and only if it is refused before it writes a register or its private region stays off the bottom one |
| `MonitorDestroy.DestroyResult` | sm/src/enclave.c:448-506 | destroying a fresh or stopped enclave frees both regions and closes the private one on every hart |
| `MonitorDestroy.CreateThenDestroy` | sm/src/enclave.c:338-506 | creating and destroying gives back the region table, but for the mark of the bottom register, and every other enclave; it gives back the registers of every hart if and only if the private region stayed off the bottom one |
| `MonitorDestroy.DestroyInv` | sm/src/enclave.c:448-506 | destruction keeps the invariant |
| `MonitorRuns.EffectInv` | sm/src/enclave.c:338-602 | a call keeps the invariant, whatever it returns, if and only if it is not a creation whose private region takes the bottom register |
| `MonitorRuns.StepInv` | sm/src/enclave.c:338-602 | the same with the return of the trap |
| `MonitorRuns.StepIsolates` | sm/src/enclave.c:338-602 | the same of isolation itself |
| `MonitorRuns.RunIsolated` | sm/src/enclave.c:338-602 | over every interleaving of calls on any harts: every hart is isolated at every point if and only if no creation in the run takes the bottom register |
| `MonitorRuns.FromBoot` | sm/src/sm.c:118-162 | every run from power-on: life cycle and disjoint memory at its end, and isolation throughout exactly if no creation takes the bottom register |
| `MonitorContext.StopResume` | sm/src/enclave.c:552-602 | an enclave stopped or interrupted on one hart and resumed later on any hart continues where it was with its registers, supervisor registers and each of the seven status fields, whatever mode the host called from; only an edge call gets 0 in a0 |
| `MonitorContext.EnterLeave` | sm/src/enclave.c:42-136 | a host gets its hart back behind its call with the seven status fields it had, the number of the reason in a0, an exit value in a1 and every other register as it was, but for the interrupts then pending, which its sip gains; its supervisor registers are unchanged if and only if each of those was pending before |
| `MonitorContext.FirstRun` | sm/src/enclave.c:42-76 | a new enclave starts at its base in supervisor mode with translation off, its seven parameters in a1 to a7 each in its place, and every other register 0 |
| `MonitorBoot.BootInv` | sm/src/sm.c:118-162 | after boot the invariant holds |
| `MonitorBottom.BottomCloses` | sm/src/enclave.c:380-441 | a creation whose private region lands on the bottom register cuts every host off from all memory that is nobody's, whether it then succeeds or is refused |
| `MonitorBottom.CreateIsolates` | sm/src/enclave.c:338-441 | whatever it returns, a creation leaves every hart isolated if and only if it is refused before it writes a register or the search for free registers stays off the bottom one |
| `MonitorBottom.BottomLeaks` | sm/src/enclave.c:78-103 | whenever a private region lands on the bottom register, running its enclave and interrupting it gives the host every address of that region |
| `MonitorSmall.IsolationCanFail` | sm/src/enclave.c:338-506 | a concrete run from boot reaches the other case: create one page, destroy it, create three pages; once the new enclave has run and been interrupted, the host reaches all of its private memory |
| `MonitorSmall.UndoCanFail` | sm/src/enclave.c:408-441 | on that machine, after one enclave has come and gone, a three-page creation refused with any code leaves the host without an address that is nobody's and that it reached before |
| `MonitorImpl.SecurityMonitor.AllocEid` | sm/src/enclave.c:175-199 | the loop finds the lowest invalid entry |
| `MonitorImpl.SecurityMonitor.RegionIndex` | sm/src/enclave.c:209-218 | the loop finds the first slot of the kind |
| `MonitorImpl.SecurityMonitor.Broadcast` | sm/src/pmp.c:203-222 | every hart is reprogrammed for the region, one after the other |
| `MonitorImpl.SecurityMonitor.SwitchToEnclave` | sm/src/enclave.c:42-90 | the statements in their order have the effect of the atomic entry |
| `MonitorImpl.SecurityMonitor.SwitchToHost` | sm/src/enclave.c:92-136 | the statements in their order, with the hand-over of pending interrupts after the swap, have the effect of the atomic exit |
| `MonitorImpl.SecurityMonitor.CreateCall` | sm/src/enclave.c:338-441 | creation with its unwinding labels, in place, refines the state function |
| `MonitorImpl.SecurityMonitor.DropPrivateRegions` | sm/src/enclave.c:475-488 | the loop that skips the shared region refines its fold |
| `MonitorImpl.SecurityMonitor.DestroyCall` | sm/src/enclave.c:448-506 | destruction in place refines the state function |
| `MonitorImpl.SecurityMonitor.Dispatch` | sm/src/sm-sbi-opensbi.c:17-79 | one call on one hart is one step of the state machine the run theorems are about |
| `MonitorImpl.SecurityMonitor.EnterCall` | sm/src/sm-sbi.c:36-54 | run and resume refine their state functions, with their error codes |
| `MonitorImpl.SecurityMonitor.LeaveCall` | sm/src/sm-sbi.c:56-71 | stop and exit act on the enclave of the calling hart |
| `SlidingWindow.Slide` | bootrom/ed25519/ge.c:25-58 | for every scalar below 2^253 the 256 digits are zero or odd and at most 15 in size and stand for the scalar |
| `SlidingWindow.Recode` | bootrom/ed25519/ge.c:34-57 | the three nested loops keep the value, with no carry off the end |
| `SlidingWindow.Absorb` | bootrom/ed25519/ge.c:36-56 | the digit in hand takes up what follows while it stays within 15, and leaves four zeros behind it or the end |
| `SlidingWindow.Carry` | bootrom/ed25519/ge.c:44-51 | the innermost loop increments the bits above, wrapping only from all ones |
| `SlidingWindow.CarryFits` | bootrom/ed25519/ge.c:41-51 | below 2^253 those bits are never all ones when a borrow happens |
| `SlidingWindow.Borrow` | bootrom/ed25519/ge.c:41-51 | subtracting and carrying keeps the value |
| `SlidingWindow.Merge` | bootrom/ed25519/ge.c:38-40 | adding and clearing keeps the value |
| `SlidingWindow.BitsOfVal` | bootrom/ed25519/ge.c:30-32 | the 256 bits stand for the bytes |
| `ScalarMult.OddTable` | bootrom/ed25519/ge.c:77-100 | the table holds A, 3A, up to 15A |
| `ScalarMult.Horner` | bootrom/ed25519/ge.c:109-128 | one round doubles and adds both digits, with every table index in range |
| `ScalarMult.DoubleAndAdd` | bootrom/ed25519/ge.c:103-129 | the two loops compute the value of both digit strings |
| `ScalarMult.DoubleScalarMult` | bootrom/ed25519/ge.c:67-130 | exactly aA + bB for all scalars below 2^253 |
| `ScalarMult.Recode16` | bootrom/ed25519/ge.c:386-412 | the digits from -8 to 8 stand for the scalar whenever a[31] is at most 127 |
| `ScalarMult.EqualMeaning` | bootrom/ed25519/ge.c:333-341 | the branch-free comparison is 1 exactly for equal bytes |
| `ScalarMult.Compares` | bootrom/ed25519/ge.c:356-371 | for digits from -8 to 8 the byte arithmetic takes the size, and the comparison is of sizes |
| `ScalarMult.Select` | bootrom/ed25519/ge.c:356-375 | the table entry of the digit, by byte arithmetic and branch-free comparisons: b times 256^pos times the base point, for negative digits and zero too |
| `ScalarMult.EvensAndOdds` | bootrom/ed25519/ge.c:414-433 | a digit string is its even places plus 16 times its odd places |
| `ScalarMult.AddDigits` | bootrom/ed25519/ge.c:414-433 | each of the two loops adds exactly its half of the digits |
| `ScalarMult.ScalarMultBase` | bootrom/ed25519/ge.c:386-434 | exactly aB |
| `Field.ColumnsValue` | bootrom/ed25519/fe.c:556-711 | the ten columns with their factors 2, 19 and 38 are the product modulo 2^255 - 19, for all integers |
| `Field.Carry` | bootrom/ed25519/fe.c:712-764 | the twelve carries keep the value modulo p and bring the limbs within the output bounds, without overflow |
| `Field.Mul` | bootrom/ed25519/fe.c:523-765 | the product modulo p, for all limbs within 1.65 times their size, every intermediate within its C type |
| `Field.SquareColumns` | bootrom/ed25519/fe.c:982-1080 | the shortened columns of a square are those of the product with itself |
| `Field.Sq` | bootrom/ed25519/fe.c:967-1127 | the square modulo p under the same bounds |
| `Field.Sq2` | bootrom/ed25519/fe.c:1130-1300 | twice the square modulo p under the same bounds |
| `GroupFormulas.Add` | bootrom/ed25519/fe.c:68-123 | limb-wise sum, exact, with the growth of the limbs accounted for |
| `GroupFormulas.Sub` | bootrom/ed25519/fe.c:1303-1357 | limb-wise difference, the same |
| `GroupFormulas.AddCached` | bootrom/ed25519/ge.c:9-22 | the twisted-Edwards sum in completed coordinates, all limbs within the bounds the products demand |
| `GroupFormulas.SubCached` | bootrom/ed25519/ge.c:441-455 | the sum with the negated point, the same |
| `GroupFormulas.AddPrecomp` | bootrom/ed25519/ge.c:188-200 | the mixed sum, the same |
| `GroupFormulas.SubPrecomp` | bootrom/ed25519/ge.c:207-220 | the mixed difference, the same |
| `GroupFormulas.Double` | bootrom/ed25519/ge.c:259-271 | the doubling, where a difference of a difference and a sum still fits |
| `GroupFormulas.ToP3` | bootrom/ed25519/ge.c:239-244 | completed to extended coordinates, limbs reduced again |
| `GroupFormulas.ToP2` | bootrom/ed25519/ge.c:227-231 | completed to projective coordinates, limbs reduced again |
| `GroupFormulas.ToCached` | bootrom/ed25519/ge.c:302-307 | the four cached values of a point |
| `GroupFormulas.ClearedExtended` | bootrom/ed25519/ge.c:239-244 | the extended coordinate satisfies tz = xy |
| `GroupFormulas.CurveConstants` | bootrom/ed25519/ge.c:133-139 | d times 121666 is -121665, sqrtm1 squares to -1, and d2 is twice d, all modulo p |
| `FieldPowers.Squarings` | bootrom/ed25519/fe.c:371-448 | a squaring and a loop of n - 1 more raise to the 2^n |
| `FieldPowers.Join` | bootrom/ed25519/fe.c:385-448 | an exponent of a ones and one of b ones give one of a + b ones |
| `FieldPowers.Exponents` | bootrom/ed25519/fe.c:364-964 | the two addition chains end in exactly p - 2 and (p - 5) / 8 |
| `FieldPowers.Invert` | bootrom/ed25519/fe.c:364-448 | z to the power p - 2 |
| `FieldPowers.Pow22523` | bootrom/ed25519/fe.c:881-964 | z to the power (p - 5) / 8 |
| `FieldBytes.EstimateExact` | bootrom/ed25519/fe.c:1361-1418 | the chained estimate is exactly the quotient by p |
| `FieldBytes.Reduce` | bootrom/ed25519/fe.c:1386-1450 | the limbs written out are those of the residue in [0, p) |
| `FieldBytes.PackValue` | bootrom/ed25519/fe.c:1459-1490 | the 32 packed bytes stand for the limbs |
| `FieldBytes.ToBytes` | bootrom/ed25519/fe.c:1386-1491 | the 32 bytes of the residue in [0, p) |
| `FieldBytes.LoadedValue` | bootrom/ed25519/fe.c:297-308 | the overlapping loads and shifts cover every bit once, and drop only the top one |
| `FieldBytes.FromBytes` | bootrom/ed25519/fe.c:297-360 | the low 255 bits modulo p in limbs within the bounds of a product |
| `FieldBytes.Normalise` | bootrom/ed25519/fe.c:297-1491 | decoding then encoding gives the low 255 bits reduced modulo p |
| `ScalarLimbs.FoldedValue` | bootrom/ed25519/sc.c:78-119 | folding six high limbs with the constants 666643, 470296, 654183, -997805, 136657, -683901 keeps the number modulo l |
| `ScalarLimbs.Reduce24` | bootrom/ed25519/sc.c:78-313 | the folds and carries give the residue in [0, l), every intermediate within 64 bits |
| `ScalarLimbs.Settle` | bootrom/ed25519/sc.c:274-313 | the last fold lands in [0, l) and not merely in a congruent range |
| `ScalarReduce.LoadsArePieces` | bootrom/ed25519/sc.c:36-59 | the overlapping loads and shifts cut the bytes into consecutive 21-bit limbs |
| `ScalarReduce.StoreValue` | bootrom/ed25519/sc.c:315-346 | the 32 bytes written out stand for the limbs |
| `ScalarReduce.ScReduce` | bootrom/ed25519/sc.c:25-347 | the first 32 bytes become the residue in [0, l) of all 64, in place |
| `ScalarMulAdd.ProductValue` | bootrom/ed25519/sc.c:447-470 | the 23 columns are the product of the limbs |
| `ScalarMulAdd.ScMulAdd` | bootrom/ed25519/sc.c:349-809 | the residue in [0, l) of ab + c for all 32-byte inputs |
| `Signature.TopClearByte` | bootrom/ed25519/verify.c:54-56 | the check of the last byte is exactly the bound of 2^253 |
| `Signature.ReducedTopClear` | bootrom/ed25519/sign.c:19-30 | a reduced scalar meets the bounds of both scalar multiplications |
| `Signature.SignedUnique` | bootrom/ed25519/sign.c:7-31 | what signing promises determines the 64 bytes |
| `Signature.SignedAccepted` | bootrom/ed25519/verify.c:47-77 | every signature made under a generated key is accepted, for every message |
| `Signature.CreateKeypair` | bootrom/ed25519/keypair.c:6-16 | the private key is the clamped hash and the public key its multiple of the base point |
| `Signature.ClampedScalar` | bootrom/ed25519/keypair.c:9-12 | the scalar of a key is 2^254 and, of the low 254 bits of the hashed seed, all but the lowest three; the second half is that of the hash |
| `Signature.Sign` | bootrom/ed25519/sign.c:7-31 | the encoded nonce point followed by the bytes of (ha + r) mod l, with the nonce and the challenge of SignedMeans |
| `Signature.SignedMeans` | bootrom/ed25519/sign.c:14-30 | the nonce is the hash of the second half of the key and then the message, the challenge that of the first half of the signature, the public key and the message, each modulo l |
| `Signature.NonceSeen` | bootrom/ed25519/sign.c:14-21 | keys with different second halves give a message the same first half of a signature exactly if they hash with it to the same residue; with equal first halves, the same signature exactly then |
| `Signature.Verify` | bootrom/ed25519/verify.c:47-77 | accepts exactly when the last byte is in range, the key decodes, and the first half encodes SB - hA, compared in constant time; for every point that decodes, those with a small-order part included |
| `Signature.AcceptsMeans` | bootrom/ed25519/verify.c:54-77 | acceptance written out, with the hash that signing takes |
| `Signature.AcceptedScalars` | bootrom/ed25519/verify.c:54-77 | beside an accepted signature exactly those with the same first half are accepted whose scalar is the same modulo l and below 2^253 |
| `Signature.ConsttimeEqual` | bootrom/ed25519/verify.c:6-45 | the collected differences vanish exactly for equal strings |
| `Signature.SignAndVerify` | bootrom/ed25519/sign.c:7-31 | a key pair made, a message signed and the signature verified: accepted for every seed and message |
| `Sponge.FeedIsAppend` | bootrom/sha3/sha3.c:118-134 | feeding a byte to a state is appending it to the message |
| `Sponge.AbsorbAppend` | bootrom/sha3/sha3.c:118-134 | absorbing a concatenation is absorbing the parts with the rest carried over |
| `Sponge.PadIsBlock` | bootrom/sha3/sha3.c:138-146 | the two pad bytes are the padded last block of section 5.1 of FIPS 202 with the SHA-3 suffix, also where they coincide |
| `Sponge.ShortDigest` | bootrom/sha3/sha3.c:103-151 | a message shorter than the rate: one permutation of the message, its padding and zeros |
| `Sponge.Hasher.constructor` | bootrom/sha3/sha3.c:103-114 | the empty message |
| `Sponge.Hasher.Update` | bootrom/sha3/sha3.c:118-134 | the message grows by the data, whatever was fed before |
| `Sponge.Hasher.Final` | bootrom/sha3/sha3.c:138-151 | the sponge digest of the whole message, for any permutation of the state; Sha3 has the source's |
| `Sponge.Split` | bootrom/sha3/sha3.c:103-165 | any way of splitting a message into updates gives the digest of the whole |
| `Keccak.Walked` | bootrom/sha3/sha3.c:28-31 | the lane table follows the walk of section 3.2.2 of FIPS 202 |
| `Keccak.OffsetFound` | bootrom/sha3/sha3.c:24-27 | the rotation table holds the offsets of that walk |
| `Keccak.ChainStep` | bootrom/sha3/sha3.c:63-70 | what rho and pi put at the lane the chain writes |
| `Keccak.ThetaInPlace` | bootrom/sha3/sha3.c:53-61 | theta on all lanes at once |
| `Keccak.Chain` | bootrom/sha3/sha3.c:63-70 | overwriting along one cycle of lanes loses no lane |
| `Keccak.RhoPiInPlace` | bootrom/sha3/sha3.c:63-70 | rho and pi on all lanes at once |
| `Keccak.ChiInPlace` | bootrom/sha3/sha3.c:72-78 | chi on all lanes at once |
| `Keccak.RoundInPlace` | bootrom/sha3/sha3.c:51-82 | one round of section 3.3 of FIPS 202 |
| `Keccak.KeccakF` | bootrom/sha3/sha3.c:11-99 | all rounds, for any lane operations and list of round constants; Sha3 has the source's |
| `Lanes.RotlBit` | bootrom/sha3/sha3.c:58-68 | rotation moves every bit up by the amount, modulo 64 |
| `KeccakBits.ThetaBit` | bootrom/sha3/sha3.c:53-61 | bit by bit: theta adds the parities of the column on the left and of the one on the right a place down (section 3.2.1 of FIPS 202) |
| `KeccakBits.RhoPiBit` | bootrom/sha3/sha3.c:63-70 | bit by bit: rho and pi take lane (a, b) to (b, 2a + 3b), rotated by its offset (sections 3.2.2 and 3.2.3) |
| `KeccakBits.ChiBit` | bootrom/sha3/sha3.c:72-78 | bit by bit: chi adds the product of the complement of the next bit of the row and the one after (section 3.2.4) |
| `KeccakBits.IotaBit` | bootrom/sha3/sha3.c:80-81 | bit by bit: iota changes lane (0, 0) where the constant has a bit (section 3.2.5) |
| `KeccakBits.ThetaInjective` | bootrom/sha3/sha3.c:53-61 | theta can be undone: six doublings of the rotation leave only the empty plane of parities |
| `KeccakBits.RhoPiInjective` | bootrom/sha3/sha3.c:63-70 | rho and pi can be undone |
| `KeccakBits.ChiInjective` | bootrom/sha3/sha3.c:72-78 | chi can be undone |
| `KeccakBits.RoundsInjective` | bootrom/sha3/sha3.c:51-82 | different states stay different through any number of rounds |
| `Sha3.RoundConstants` | bootrom/sha3/sha3.c:14-23 | every constant of the table is the one the shift register of section 3.2.5 of FIPS 202 gives |
| `Sha3.ConstantBits` | bootrom/sha3/sha3.c:14-23 | bits 0, 1, 3, 7, 15, 31 and 63 of a constant are seven successive outputs of the register, and there is no other bit in it |
| `Sha3.PadBits` | bootrom/sha3/sha3.c:138-146 | the padding bit by bit: 01, 1, zeros, 1 |
| `Sha3.WordsBytes` | bootrom/sha3/sha3.c:118-134 | the byte view and the word view are of one state |
| `Sha3.BytesWords` | bootrom/sha3/sha3.c:118-134 | and the other way around |
| `Sha3.PermuteWords` | bootrom/sha3/sha3.c:11-83 | on the words under the bytes the permutation is the 24 rounds |
| `Sha3.PermuteInjective` | bootrom/sha3/sha3.c:11-83 | it is a permutation of the 200-byte states |
| `Sha3.KeccakBytes` | bootrom/sha3/sha3.c:11-99 | the in-place rounds on 64-bit words with the source's constants are that permutation |
| `Sha3.Hash` | bootrom/sha3/sha3.c:103-164 | init, any number of updates and final give the sponge digest over Keccak-f[1600] |

## Left out

Deliberately weaker or conditional members:

- MerkleVerify.VerifySound: speaks of stored keys; for other keys the code accepts the neighbouring leaf's digest, as VerifyComplete states.
- MerkleAliased.StoredCommits: takes the headers of the allocator as off the search path, and for a new key the new parent too; HeaderSwap is an input off the first, and StoredRoot says for every memory and allocator when the new root stands for a tree.
- MerkleAliased.VerifiedInsert: speaks of memory that nobody but the call itself writes meanwhile.
- UntrustedStore.SwapsFaithful: promises nothing after an exchange during which a header of the allocator was on the path or the topmost node was handed out; HeaderSwap and LostSwap are the inputs.
- NodePool.Pool.AllocNode: requires a backing page if no node is free; the source does not check the allocator's answer and writes through address 0.
- MerkleTree.Store.Insert: requires the backing page it takes, for the same reason; the sibling check of the first upward round is placed after the splice, which it cannot observe.
- DemandPager.DemandPager.RunAll: stops at an operation without the backing pages it takes or with a search path too long; the source writes to address 0 or drops the binding there. The nodes and the store are honest.
- DemandPager.DemandPager.SwapEpm: requires those pages and a short path, as do EvictAndFree, BringIn and HandleFault above it.
- PageCounters.Counters.Locate: requires a backing page if it has to take one, as does every operation above it; the source does not check the allocator's answer.
- DemandPager.DemandPager.Choose: takes virtual page 0 as unmapped, since the source uses 0 for "no page".
- MonitorLife.CreateUndone: does not promise that a failed creation leaves the harts as they were; that holds exactly under the condition it states, and UndoCanFail is an input off it.
- MonitorLife.CreateInv: promises the invariant under that condition only; off it the invariant fails.
- MonitorDestroy.CreateThenDestroy: promises the registers of the harts under that condition only.
- MonitorRuns.RunIsolated: promises isolation of the runs whose creations all meet that condition, and shows that every other run breaks it.
- MonitorImpl.SecurityMonitor.Dispatch: one call is one atomic step; interleavings inside a call, locks and the interrupts between harts are not modelled, nor what the firmware's call handler writes to a0, a1 and the program counter after a refused call, a creation or a destruction.
- AddressSpace.Space.MapPage: out-of-memory assertions become a result that is false.
- SlidingWindow.Slide: requires a scalar below 2^253, which both callers guarantee; larger scalars can carry off the end.
- ScalarMult.DoubleScalarMult: works on formal combinations of A and B, not on coordinates; GroupFormulas covers the coordinates.
- ScalarMult.Select: takes the table of multiples of the base point as what it should contain, and a multiple for its three field elements.
- FieldPowers.Invert: states the power, not that it is the inverse, which needs that 2^255 - 19 is prime.
- GroupFormulas.CurveConstants: does not claim that the base-point tables are on the curve.
- Signature.SignedAccepted: takes decoding as the inverse of encoding and the hash as any function; points are numbers modulo the number of points.
- Signature.Verify: takes decoding as a function to the points of the curve, which form a cyclic group of order 8l; that they do is not proved.
- Signature.Sign: takes scalars of 32 bytes as sequences where the source shares a buffer with the result.
- Sha3.Hash: models the little-endian view of the state, not the byte swaps for other machines; a 64-bit word is the sequence of its bits.
- PageOuts.KeysOnce: speaks of the page-outs to one slot. All slots share one key and each starts from a random counter, so nothing is promised across slots; BlocksMeet is an input past the wrap.
- Pmp.SetMatches: models configuration entries as records, not their packing into words; additions stand for or-ing disjoint bits.

Not modelled:

- The block cipher, SHA-256 and the random generator, which are function parameters or inputs.
- Page contents seen by the monitor: clearing, copying and measuring enclave memory.
- Attestation, sealing keys, plugins and the platform hooks.
- `realloc_page`, and `alloc_pages` and `free_pages`, which only repeat `alloc_page` and `free_page`.
- `paging_remaining_pages` and the exactness of the user-page count, which nothing modelled depends on.
- The difference between physical and virtual addresses of page tables.
- Point decompression and `fe_mul121666`, `fe_cswap` and the other field helpers the modelled code does not use.
- Loaders, system-call proxies, the host library, the driver and the build.
