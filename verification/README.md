# imconee: a Dafny model of its protocols, buffers, locks and ciphers

imconee is a proxy. It relays byte streams between sockets, speaks the Shadowsocks AEAD protocol, and carries its
own copy of the cipher code it needs (Botan). This project models the logic of both parts and proves what they are
for. It is checked with `dafny verify dfyconfig.toml`.

Code that changes state step by step is modelled by classes, arrays and loops; every such method is proved against a
specification function, and the properties are lemmas about that function. Concurrent code is modelled as a state
machine whose steps are the atomic accesses, and the properties hold in every state of every run.

| files | what they model |
|---|---|
| `Wrappers`, `Words`, `Octets` | option type; machine words as numbers with their width written out, byte strings in both orders; bytes as bits |
| `ChunkBuffer`, `CircularBuffer` | the two byte queues of `tools.h` |
| `Nonce`, `SsChunks`, `SsCryptor`, `SsPipe`, `SsSession` | the Shadowsocks AEAD stream: nonces, chunk format, receiver, pipe, both ends together |
| `TcpPipe`, `TcpReceiver` | sending and receiving over a non-blocking socket |
| `RwSpinlock` | the re-entrant reader/writer lock in one word |
| `LockFreeQueue`, `LockFreeCalls`, `LockFreeProgress` | the two-pointer linked queue: its invariant, whole calls, and progress |
| `SlotTable` | the table of bridged pipe pairs of one thread: adding, ticking, forwarding |
| `Arena`, `Allocator` | the arenas with their free lists inside the free slots, and `ma`, `rs`, `mf` over them |
| `Donna128`, `Poly1305Limbs`, `Poly1305`, `AlignmentBuffer`, `Poly1305Stream` | Poly1305 in limbs of 44, 44 and 42 bits, and the streaming interface |
| `Gf128`, `GhashClmul`, `Ghash` | GF(2^128), the carry-less 4-way GHASH, the table GHASH and the MAC around both |
| `CtrMode`, `ChachaBlocks`, `Chacha`, `ChachaPoly` | the keystream machines and the ChaCha20-Poly1305 mode |
| `AesCircuits`, `AesSlices`, `Fips197`, `AesLanes`, `AesInverse`, `Aes` | bitsliced AES against FIPS 197, both directions, and the key schedule |
| `AesExamples`, `ChachaExamples`, `Poly1305Examples`, `GhashExamples` | the definitions of the standards on the standards' own examples |

## What was found

The code is modelled as it is. Where it does not do what its documentation or its standard says, a lemma states
exactly when it does.

- Poly1305 (`poly1305_finish`): the mask that selects h or h - p is taken from the carry out of the middle limb and
  not from the comparison with the prime. The tag is the tag of RFC 8439 exactly when the low 88 bits of the final
  accumulator are below 2^88 - 5 (`StreamTagIsRfcTag`); `StreamTagCounterexample` gives a key and a message.
  Sender and receiver compute the same wrong tag, so the round trip of ChaCha20-Poly1305 is not affected.
- An empty send breaks the Shadowsocks stream for some fragmentations: the receiver takes a cached payload size of
  0 for "no size block opened yet". Every fragmentation is delivered if and only if no send is empty
  (`ReproducedIffNoEmptySend`). That the stream breaks needs an AEAD that does not open the size block of an empty
  payload as the next block of the session; `LabelledIsLawful` gives one, and `EmptySendExample` the broken stream.
- ChaCha `seek` adds to word 13 and does not reset it: every seek is off by 2^38 bytes for each time that word has
  moved up since the IV was set, so it is right if and only if the buffer has not been filled beyond the first 2^38
  bytes (`ChachaCipher.Seek`). `SeekBackMisses`: a seek to 2^38 and one back to 0 end at 2^38.
- A thread that holds the lock for reading and asks for writing waits for itself for ever, in either loop of
  `lock_write` (`ReadThenWriteDeadlocks`; `DeadlockIsReached` is a run of four steps into it). Once the others have
  given back their locks, three steps of its own give a thread the lock if and only if it has no read lock itself
  (`LockWriteEnds`).
- GHASH keeps counting additional data given during an earlier message, and text of a message that was not finished.
  The tag is the tag of NIST SP 800-38D if and only if the difference of the two length blocks, multiplied by H, is
  zero (`StaleTagIsGcmTag`); what is counted too much does no harm if it is a multiple of 2^61 bytes
  (`WholeWrapsDoNoHarm`), and `StaleCount` is a second message with a wrong tag.
- The slot number a tick answers with can equal the number of slots (`TickEnd`, `TickNamesNoSlot`). `handler::bridge`
  passes it on to `forward`, which asserts that it is smaller. Such a call loses the last pair and gives the next
  thread a slot without pipes; the two tables keep all pairs if and only if the slot is below the number of slots
  or the next thread refuses (`Forward`, `BridgeTurn`, `BridgeLosesPair`).
- The ring has one more state without free space than `is_full` knows (`FullMeansNoSpace`).
- `rcv_all` does not read when the ring has 1300 bytes of free space or less, so a receive call for an exact count
  can wait for ever although bytes keep arriving. It reads in every state with too few bytes if and only if the count
  is at most 47851 (`ReadsWhileShort`); `ExactWaits` waits for any count beyond that.

## Model

| member | source | states |
|---|---|---|
| `SsChunks.CutProperties` | source/imconee/cipher_ss.cpp:364-384 | the payloads a send is cut into join to the plaintext, none is longer than 0x3FFF, and none is empty unless the plaintext is |
| `SsChunks.WireConcat` | source/imconee/cipher_ss.cpp:364-384 | the wire of two lists of payloads is the wire of the first followed by that of the second with the nonce advanced by two a chunk |
| `SsChunks.SizeRoundTrip` | source/imconee/cipher_ss.cpp:366-377 | the two size bytes give back the payload length |
| `SsChunks.SizeIsBigEndian` | source/imconee/cipher_ss.cpp:364-442 | the size goes out as two bytes in network order, and two bytes are read so |
| `SsChunks.WireBegins` | source/imconee/cipher_ss.cpp:364-384 | the wire of a send begins with the sealed length of its first piece, in network order, and that piece under the next nonce |
| `SsCryptor.AeadCryptor.Encipher` | source/imconee/cipher_ss.cpp:364-384 | the ciphertext is the wire of the cut plaintext from the current nonce, which moves on by two a chunk |
| `SsChunks.DecryptInStep` | source/imconee/cipher_ss.cpp:409-457 | one call, in step with the sender: nothing below a size block; the size block opened once and its size cached; or the whole chunk opened and its payload emitted |
| `SsChunks.DecryptReadsSize` | source/imconee/cipher_ss.cpp:409-457 | after a size block of any sender the receiver waits for as many bytes as it says in network order; more than 0x3FFF is an error |
| `SsChunks.DecryptAllBounds` | source/imconee/cipher_ss.cpp:463-491 | the offset never leaves the buffer, grows with every opened chunk, and is 0 whenever a size is cached: the assertion on from_current holds and the check for corrupt data cannot fire |
| `SsChunks.DecryptAllInStep` | source/imconee/cipher_ss.cpp:463-491 | the loop opens exactly the chunks that are wholly there, in order, and leaves the rest of the bytes |
| `SsChunks.DecipherInStep` | source/imconee/cipher_ss.cpp:459-494 | after each call the plaintext emitted is that of exactly the chunks wholly received, the unprocessed bytes are what remains, and receiver and sender are in step again |
| `SsChunks.RunInStep` | source/imconee/cipher_ss.cpp:459-494 | over any fragmentation of any prefix of the wire: what is emitted, what is kept, and that the nonce counts two a complete chunk and one more when only a size block has been opened |
| `SsChunks.StreamDelivered` | source/imconee/cipher_ss.cpp:364-494 | for all non-empty sends and every fragmentation, the receiver never fails and emits the payloads of the chunks wholly received; with all the ciphertext, the sends themselves |
| `SsChunks.EmptySizeBlock` | source/imconee/cipher_ss.cpp:409-457 | an empty chunk whose size block comes alone makes the next call fail, if the AEAD does not open that block as the next one |
| `SsChunks.EmptyPayloadBreaks` | source/imconee/cipher_ss.cpp:409-457 | for every stream with an empty payload there is a fragmentation that makes the receiver fail, under the same condition on that one block |
| `SsChunks.ReproducedIffNoEmptySend` | source/imconee/cipher_ss.cpp:364-494 | every fragmentation of the ciphertext reproduces the sends if and only if no send is empty |
| `SsChunks.LabelledIsLawful` | source/imconee/cipher_ss.cpp:118-145 | there is an AEAD that meets both assumptions of the theorems, for every nonce length from 1 to 16 |
| `SsChunks.EmptySendExample` | source/imconee/cipher_ss.cpp:409-494 | with that AEAD, a fragmentation of one empty send that is not reproduced |
| `SsCryptor.SkipBuffer.Append` | source/imconee/cipher_ss.h:180-190 | appends to the unread bytes, also when they are moved to the front first |
| `SsCryptor.SkipBuffer.Erase` | source/imconee/cipher_ss.h:175-178 | drops bytes from the front |
| `SsCryptor.KeyedFilter.Seal` | source/imconee/cipher_ss.cpp:118-145 | seals under the nonce of the current index and advances it |
| `SsCryptor.KeyedFilter.Open` | source/imconee/cipher_ss.cpp:118-145 | opens under the nonce of the current index and advances it only on success |
| `SsCryptor.AeadCryptor.Decrypt` | source/imconee/cipher_ss.cpp:409-457 | the method on buffers does what the specification function says of the abstract receiver |
| `SsCryptor.AeadCryptor.Decipher` | source/imconee/cipher_ss.cpp:459-494 | likewise for a whole fragment, in-place buffers included |
| `Nonces.NonceIncrement` | source/imconee/cipher_ss.h:13-21 | adds one to the little-endian number in place, wrapping at the length of the nonce |
| `Nonces.NonceAfter` | source/imconee/cipher_ss.h:13-21 | the nonce after k blocks, incremented, is the nonce after k + 1 |
| `Nonces.NonceRepeats` | source/imconee/cipher_ss.h:13-21 | two block numbers have the same nonce if and only if they agree modulo 256^n, so none repeats within 256^n blocks |
| `SsPipe.CryptoPipe.Recv` | source/imconee/cipher_ss.cpp:260-326 | returned bytes and bytes kept are the run of the receiver over what the transport gave; exactly the count asked for in exact mode, otherwise at most that many; without bytes only if too few are there, and the transport has come to its end or what it gave does not decipher |
| `SsPipe.CryptoSender.Send` | source/imconee/cipher_ss.cpp:242-258 | unless the socket breaks, socket and queue together hold the salt and the wire of all sends so far; Ok means nothing waits; Fail exactly when the socket breaks |
| `SsSession.RunBehind` | source/imconee/cipher_ss.cpp:459-494 | what was handed out earlier does not change what a later run does |
| `SsSession.PartDelivered` | source/imconee/cipher_ss.cpp:364-494 | whatever part of the wire has arrived, the plaintext is the start of what was sent, and all of it with all of the wire |
| `SsSession.CallDelivers` | source/imconee/cipher_ss.cpp:260-326 | one more call keeps that, and does not fail |
| `SsSession.HandedNothing` | source/imconee/cipher_ss.cpp:260-326 | a new pipe is where that starts from |
| `SsSession.ReceiveSent` | source/imconee/cipher_ss.cpp:242-326 | both ends together: a receive call fails only when the transport has come to its end; all bytes handed out so far are the start of all bytes sent; with all of the wire, what was handed out and what is kept are all bytes sent |
| `TcpPipes.TcpPipe.Send` | source/imconee/netkit.cpp:323-390 | bytes given to the socket, then bytes waiting, are all bytes passed to send, in order, for arbitrary partial or would-block results; Ok exactly when nothing waits; Fail exactly when there is something to send and the socket breaks |
| `TcpReceivers.TcpReceiver.RcvAll` | source/imconee/netkit.cpp:427-487 | bytes move from the socket to the ring in order, none lost whatever the socket answers, until nothing is there or little space is left; false only on an error or a receive call that gives nothing |
| `TcpReceivers.TcpReceiver.Recv` | source/imconee/netkit.cpp:412-421 | hands out the next bytes in order; fewer than asked for only when the ring is empty afterwards; -1 only with too few bytes and an answer that ends the connection |
| `TcpReceivers.TcpReceiver.RecvExact` | source/imconee/netkit.cpp:394-410 | for every count: exactly that many bytes, or -1 after an answer that ends the connection, or still waiting, and then nothing is handed out; a ring with little space and too few bytes never gives them |
| `TcpReceivers.ReadsWhileShort` | source/imconee/netkit.cpp:394-487 | in every state with fewer bytes than asked for there is space enough to read, if and only if no more than 47851 are asked for |
| `TcpReceivers.ExactWaits` | source/imconee/netkit.cpp:394-487 | for every larger count, a run that is still waiting after any number of turns |
| `ChunkBuffers.ChunkBuffer.Append` | source/imconee/tools.h:1034-1057 | appends to a byte queue |
| `ChunkBuffers.ChunkBuffer.GetFirstChunk` | source/imconee/tools.h:1059-1064 | a prefix of the contents, empty exactly when the buffer says it is |
| `ChunkBuffers.ChunkBuffer.Skip` | source/imconee/tools.h:1066-1086 | drops a prefix; with nothing to drop it removes an empty last chunk |
| `ChunkBuffers.ChunkBuffer.Peek` | source/imconee/tools.h:1088-1102 | takes the longest prefix up to the count, and ends also with an empty last chunk |
| `ChunkBuffers.ChunkBuffer.PeekAll` | source/imconee/tools.h:1104-1127 | takes everything and leaves no chunk |
| `ChunkBuffers.ChunkBuffer.EmptyMeansEmpty` | source/imconee/tools.h:1130-1133 | is_empty if and only if the queue is empty |
| `ChunkBuffers.ChunkBuffer.Enough` | source/imconee/tools.h:1135-1146 | at least that many bytes, both directions |
| `ChunkBuffers.ChunkBuffer.EnoughFor` | source/imconee/tools.h:1148-1159 | at most that many bytes, both directions |
| `CircularBuffers.CircularBuffer.SizesAddUp` | source/imconee/tools.h:1189-1202 | datasize is the length of the queue; data and free space make up the size, less one as soon as the front has moved |
| `CircularBuffers.CircularBuffer.FullMeansNoSpace` | source/imconee/tools.h:1179-1202 | no free space if and only if is_full, or the one state in which the data ends at the end and starts at 1 |
| `CircularBuffers.CircularBuffer.FirstFree` | source/imconee/tools.h:1204-1216 | the tank lies in the buffer, within the free space, and is not empty when there is any |
| `CircularBuffers.CircularBuffer.Confirm` | source/imconee/tools.h:1217-1242 | what was written into the tank is appended to the queue, wrapping included |
| `CircularBuffers.CircularBuffer.Deposit` | source/imconee/netkit.cpp:450-475 | bytes received into the tank and confirmed are appended to the queue |
| `CircularBuffers.CircularBuffer.Peek` | source/imconee/tools.h:1244-1291 | takes the longest prefix up to the count, in one piece or in two |
| `CircularBuffers.CircularBuffer.MoveFrom` | source/imconee/tools.h:1169-1177 | the whole queue moves over and the other one is empty |
| `RwSpinlock.StepKeeps` | source/imconee/spinlock.h:230-338 | every step of every thread keeps the invariant of word and threads |
| `RwSpinlock.MutualExclusion` | source/imconee/spinlock.h:230-260 | in every state of every run a thread past lock_write excludes every other reader and writer |
| `RwSpinlock.WriterBlocksOthers` | source/imconee/spinlock.h:230-283 | while a writer holds or waits for the lock, no step gives another thread a read or write lock |
| `RwSpinlock.WordEncodesState` | source/imconee/spinlock.h:230-338 | the word always encodes the number of readers, the depth of writing and the owner |
| `RwSpinlock.EncodeInjective` | source/imconee/spinlock.h:230-338 | different counts and owners have different words |
| `RwSpinlock.ReleaseSucceeds` | source/imconee/spinlock.h:318-332 | the one unchecked exchange of unlock_write finds the word it expects, in every run |
| `RwSpinlock.FreeAgain` | source/imconee/spinlock.h:318-338 | when nobody holds or waits the word is 0 |
| `RwSpinlock.ReadThenWriteDeadlocks` | source/imconee/spinlock.h:230-260 | a reader that asks for writing stays in one of the two loops in every continuation and never gets the write lock |
| `RwSpinlock.DeadlockIsReached` | source/imconee/spinlock.h:230-283 | a run of four steps, for any threads, to a reader in the first and then in the second loop |
| `RwSpinlock.DrainEnds` | source/imconee/spinlock.h:252-260 | a step in the second loop takes the lock exactly when no thread has a read lock |
| `RwSpinlock.LockWriteEnds` | source/imconee/spinlock.h:230-260 | with the others' locks given back, three steps of its own give the thread the lock, exactly if it has no read lock itself |
| `RwSpinlock.LockReadEnds` | source/imconee/spinlock.h:262-283 | readers share: two steps of its own give a thread in lock_read its lock, however many others read, exactly if no writer has entered |
| `RwSpinlock.OwnerLocksAgain` | source/imconee/spinlock.h:230-318 | whoever holds the write lock gets any further lock, reading or writing, in two steps of its own |
| `RwSpinlock.TryLockReadEnds` | source/imconee/spinlock.h:285-300 | in every run: a read lock exactly if no writer has entered and as many read as were seen; else nothing has changed |
| `RwSpinlock.TryLockWriteEnds` | source/imconee/spinlock.h:303-316 | in every run: the write lock exactly if nobody reads and no writer has entered; else nothing has changed |
| `RwSpinlock.TryUndisturbed` | source/imconee/spinlock.h:285-316 | undisturbed, both calls get their lock exactly if it is to be had |
| `RwSpinlock.CallsDoTheirPart` | source/imconee/spinlock.h:230-338 | in every run each step of a thread leaves it in its loop with the locks it has, or ends the call with exactly the lock gained or given back that the call is for |
| `LockFreeQueue.StepKeeps` | source/imconee/queue.h:102-194 | every atomic step of every thread keeps the invariant of chain, ends and local views |
| `LockFreeQueue.FirstInFirstOut` | source/imconee/queue.h:102-194 | in every run the values taken are the values linked, in link order, none lost or twice, and those not yet taken are still in their nodes |
| `LockFreeQueue.EndsInOrder` | source/imconee/queue.h:102-194 | Head never passes Tail, and Tail is the last node or the one before it |
| `LockFreeQueue.HistoryGrows` | source/imconee/queue.h:102-194 | what was linked or taken stays so; one step adds at most one value to either history |
| `LockFreeQueue.EmptyAnswerIsHonest` | source/imconee/queue.h:145-194 | when dequeue answers empty, the queue was empty at some moment of that call |
| `LockFreeCalls.EnqueueCall` | source/imconee/queue.h:102-143 | in every run, a whole enqueue puts in exactly the value it was called with |
| `LockFreeCalls.DequeueCall` | source/imconee/queue.h:145-194 | in every run, a whole dequeue that succeeds takes out exactly one value, the one in the caller's variable; one that answers empty takes out none, and at some moment of it the queue was empty |
| `LockFreeProgress.SomeoneGetsOn` | source/imconee/queue.h:102-194 | no thread waits for another: whatever the others do, 36 moves of a thread in one call mean that the call has ended or a value was put in or taken out meanwhile |
| `LockFreeProgress.DequeueAlone` | source/imconee/queue.h:145-194 | a dequeue left alone ends within 38 moves, with the oldest value if there is one, else with the answer empty |
| `LockFreeProgress.EnqueueAlone` | source/imconee/queue.h:102-143 | an enqueue left alone ends within 38 moves, with its value behind all others |
| `SlotTables.ProcessingThread.TryAddBridge` | source/imconee/handlers.h:91-111 | the pair, or two null pipes, goes behind all others; refused when full; a closed table never takes one |
| `SlotTables.ProcessingThread.TickBegin` | source/imconee/handlers.cpp:186-202 | the loop is the sweep over the pairs; an empty table is closed for good |
| `SlotTables.SweepKeeps` | source/imconee/handlers.cpp:186-194 | the sweep loses and doubles no pair and takes out only pairs that could not be registered |
| `SlotTables.SweepPlaces` | source/imconee/handlers.cpp:186-194 | a pair stays in its place exactly when it could be registered; in the place of any other there is one from behind |
| `SlotTables.ProcessingThread.ProcessSlot` | source/imconee/handlers.cpp:213-229 | a dead pair and no other is taken out; cleared slots are skipped on the next turn |
| `SlotTables.ProcessingThread.TickEnd` | source/imconee/handlers.cpp:231-255 | closing up keeps all pairs in their order, with additions made meanwhile; the occupied slots are again those below numslots; when the answer is not the number of a slot, both directions |
| `SlotTables.ProcessingThread.Forward` | source/imconee/handlers.cpp:351-371 | both tables together keep all pairs if and only if the slot is below the number of slots or the other table refuses; what both tables are in each case, and that the next table then holds a null pair |
| `SlotTables.ProcessingThread.MoveSlot` | source/imconee/handlers.h:60-69 | one slot in place of another, and the old one emptied; to a slot behind it the pair is gone |
| `SlotTables.MoveDownKeeps` | source/imconee/handlers.cpp:236-247 | moving a pair down over empty slots keeps the order of all pairs |
| `SlotTables.Tick` | source/imconee/handlers.cpp:184-256 | pairs leave only when they die or could not be registered; the answer is 0 when nothing was signalled, without deaths the first slot signalled nothing, and never more than the number of slots, equal to it only after a death |
| `SlotTables.TickNamesNoSlot` | source/imconee/handlers.cpp:184-256 | a tick that answers 1 with one slot left |
| `SlotTables.BridgeTurn` | source/imconee/handlers.cpp:258-282 | one turn of the loop over a tick and a forward: the pair in the slot the tick answers with goes to the next thread if that takes it; besides deaths, at most one pair is lost, and only after a death and to a next thread that accepts |
| `SlotTables.BridgeLosesPair` | source/imconee/handlers.cpp:258-371 | the run of that tick one step further: the busy pair is in neither table |
| `Arenas.Arena.constructor` | source/imconee/mem.cpp:132-141 | all slots are free and the list threads through them in order |
| `Arenas.Arena.Alloc` | source/imconee/mem.cpp:152-186 | takes the first free slot, which is then live; nothing exactly when no slot is free; all other slots keep their state |
| `Arenas.Arena.Free` | source/imconee/mem.cpp:188-221 | the slot goes to the front of the list; the bytes of every live slot stay; false exactly for an address outside |
| `Arenas.Arena.Write` | source/imconee/mem.cpp:125-222 | whatever a client writes into its slot, the free list and all other slots stay |
| `Arenas.IndexInside` | source/imconee/mem.cpp:143-150 | the unsigned division finds a slot number exactly for the addresses of the buffer |
| `Arenas.PushKeeps` | source/imconee/mem.cpp:188-221 | the free list stays an acyclic chain that visits exactly the free slots |
| `Allocators.Allocator.BlocksApart` | source/imconee/mem.cpp:225-330 | live blocks never overlap, wherever they are |
| `Allocators.Allocator.OnePlace` | source/imconee/mem.cpp:143-150 | every live block is in exactly one arena or on the heap, and here finds which |
| `Allocators.Allocator.Ma` | source/imconee/mem.cpp:296-312 | a new live block of at least the size, from the first arena whose slots are large enough and not all taken, else from the heap; all other blocks and their bytes stay |
| `Allocators.Allocator.Mf` | source/imconee/mem.cpp:313-330 | the block is no longer live; all others and their bytes stay |
| `Allocators.Allocator.Rs` | source/imconee/mem.cpp:256-294 | as many old bytes as fit are at the start of the resized block, also when it moves between arenas and heap; it stays in its slot exactly when that is large enough; all other blocks stay |
| `Donna128.Mul64Exact` | source/botan/internal/donna128.h:99-105 | the two-word product is exact |
| `Donna128.AddExact` | source/botan/internal/donna128.h:72-79 | the two-word sum is exact as long as it fits |
| `Donna128.AddWordExact` | source/botan/internal/donna128.h:81-88 | likewise with one word |
| `Donna128.CarryShiftExact` | source/botan/internal/donna128.h:132-134 | the shifted carry is the quotient whenever it fits one word |
| `Poly1305Limbs.SplitValue` | source/botan/poly1305.cpp:64-69 | the limbs of a block have the value of the block |
| `Poly1305Limbs.MultiplyExact` | source/botan/poly1305.cpp:71-78 | no carry of the three products is truncated |
| `Poly1305Limbs.BlockStepValue` | source/botan/poly1305.cpp:63-89 | one block keeps the limb bounds, and the value is (h + m) * r modulo 2^130 - 5 |
| `Poly1305Limbs.FullCarryValue` | source/botan/poly1305.cpp:100-123 | the two carry passes give canonical limbs of the same residue |
| `Poly1305Limbs.SelectValue` | source/botan/poly1305.cpp:125-138 | what the mask selects, for every value |
| `Poly1305Limbs.AddPadValue` | source/botan/poly1305.cpp:140-151 | adds the second half of the key modulo 2^130 |
| `Poly1305Limbs.PackValue` | source/botan/poly1305.cpp:153-160 | the two output words are the value modulo 2^128 |
| `Poly1305Mac.Poly1305Init` | source/botan/poly1305.cpp:23-40 | the state of the key: clamped r, zero accumulator, pad |
| `Poly1305Mac.Poly1305Blocks` | source/botan/poly1305.cpp:42-94 | for any number of blocks the accumulator is that of the Horner polynomial |
| `Poly1305Mac.AbsorbConcat` | source/botan/poly1305.cpp:42-94 | blocks may be absorbed in any number of calls |
| `Poly1305Mac.RfcOnBlocks` | source/botan/poly1305.cpp:42-94 | on whole blocks the accumulator is that of section 2.5.1 of RFC 8439 |
| `Poly1305Mac.Poly1305Finish` | source/botan/poly1305.cpp:96-161 | the tag of the accumulator as the code selects it, and the state wiped |
| `Poly1305Mac.StreamTagIsRfcTag` | source/botan/poly1305.cpp:96-161 | the code's tag is the tag of RFC 8439 if and only if the low 88 bits of the accumulator are below 2^88 - 5 |
| `Poly1305Mac.StreamTagCounterexample` | source/botan/poly1305.cpp:125-138 | a key and a message for which the tags differ |
| `Poly1305Examples.ClampingByBytes` | source/botan/poly1305.cpp:23-40 | the mask on the number is the clamping of section 2.5 of RFC 8439, byte by byte, for every key |
| `Poly1305Examples.TagExample` | source/botan/poly1305.cpp:23-161 | section 2.5.2 of RFC 8439: the tag from the key and message bytes |
| `Poly1305Examples.StreamTagExample` | source/botan/poly1305.cpp:23-161 | the code's tag is that one |
| `AlignmentBuffers.AlignmentBuffer.HandleUnalignedData` | source/botan/internal/alignment_buffer.h:167-196 | fills up the pending block; hands it out exactly when it is full; leaves aligned input alone |
| `AlignmentBuffers.AlignmentBuffer.AlignedDataToProcess` | source/botan/internal/alignment_buffer.h:127-135 | all whole blocks of the input and no more |
| `AlignmentBuffers.AlignmentBuffer.FillUpWithZeros` | source/botan/internal/alignment_buffer.h:80-86 | the pending bytes followed by zeros |
| `Poly1305Stream.Poly1305.Update` | source/botan/poly1305.cpp:181-198 | the message grows by the input, however it is cut |
| `Poly1305Stream.Poly1305.Final` | source/botan/poly1305.cpp:200-214 | the tag of the whole message |
| `Gf128.MulCommutes` | source/botan/ghash.cpp:36-81 | bit-serial multiplication of section 6.3 of NIST SP 800-38D commutes |
| `Gf128.MulAssociates` | source/botan/ghash_cpu.cpp:139-149 | it is associative, which powers of H rely on |
| `Gf128.GhashMore` | source/botan/ghash.cpp:36-81 | hashing may be continued from where it stopped |
| `GhashClmul.ReduceStep` | source/botan/ghash_cpu.cpp:76-93 | the shift-and-fold reduction commutes with multiplication by x |
| `GhashClmul.GcmMultiplyIsMul` | source/botan/ghash_cpu.cpp:95-106 | four carry-less products and one reduction are multiplication in GF(2^128) |
| `GhashClmul.GcmMultiply4IsSum` | source/botan/ghash_cpu.cpp:108-135 | Karatsuba products with one delayed reduction are the sum of four multiplications |
| `GhashClmul.HornerFour` | source/botan/ghash_cpu.cpp:158-177 | four blocks by four powers of H are four Horner steps |
| `GhashClmul.GhashPrecompute` | source/botan/ghash_cpu.cpp:139-149 | the table holds H to H^4 |
| `GhashClmul.GhashMultiply` | source/botan/ghash_cpu.cpp:152-188 | for every block count, left-over blocks included, the loop is GHASH one block at a time |
| `GhashMac.BuildTable` | source/botan/ghash.cpp:110-138 | the interleaved table holds the multiples of H by the powers of x |
| `GhashMac.MaskIsGate` | source/botan/ghash.cpp:62-73 | the arithmetic mask adds the multiple exactly when the bit is set |
| `GhashMac.GhashMultiply` | source/botan/ghash.cpp:36-81 | the table loop is GHASH, for every block count |
| `GhashMac.PaddedConcat` | source/botan/ghash.cpp:83-104 | a block-aligned part and the rest are padded as their concatenation is |
| `GhashMac.LengthBlockWraps` | source/botan/ghash.cpp:177-188 | the lengths in the last block wrap at 64 bits of bits |
| `GhashMac.LengthBytes` | source/botan/ghash.cpp:177-188 | the bytes of the last block are the bit length of the additional data and that of the text, each in network order, modulo 2^64 |
| `GhashMac.LengthBlocksEqual` | source/botan/ghash.cpp:177-188 | two pairs of lengths have the same last block if and only if they agree modulo 2^61 bytes |
| `GhashMac.CountedTagsEqual` | source/botan/ghash.cpp:177-202 | with two pairs of counted lengths the tags are equal if and only if the difference of the last blocks, multiplied by H, is zero |
| `GhashMac.GhashState.Absorb` | source/botan/ghash.cpp:83-104 | either form of multiplication gives GHASH of the zero-padded input |
| `GhashMac.GhashState.Start` | source/botan/ghash.cpp:148-152 | a new message over the set additional data, from any state; what an earlier message has counted stays counted; other nonce lengths are refused |
| `GhashMac.GhashState.Update` | source/botan/ghash.cpp:171-175 | the text grows by the piece; block-aligned pieces and a short last one equal one call |
| `GhashMac.GhashState.Final` | source/botan/ghash.cpp:190-202 | for aligned pieces, the tag over all data with the lengths as counted, whatever was left over from earlier messages |
| `GhashMac.GhashState.Reset` | source/botan/ghash.cpp:217-222 | nothing is counted any more |
| `GhashMac.StaleTagIsGcmTag` | source/botan/ghash.cpp:177-202 | the tag is that of section 6.4 of NIST SP 800-38D if and only if the difference of the last blocks, multiplied by H, is zero |
| `GhashMac.WholeWrapsDoNoHarm` | source/botan/ghash.cpp:177-202 | it is, if what was left over is a multiple of 2^61 bytes |
| `GhashMac.StaleCount` | source/botan/ghash.cpp:148-202 | a second message, after one with additional data of its own, that has another tag |
| `GhashExamples.TagExample` | source/botan/ghash.cpp:83-202 | test case 2 of the GCM specification: the tag from key, mask and text bytes |
| `CtrMode.AddToField` | source/botan/ctr.cpp:193-205 | adds a 64-bit number to a big-endian counter of any width, modulo its width |
| `CtrMode.CtrBe.AddCounter` | source/botan/ctr.cpp:161-206 | every path, by counter width, moves all blocks on by the same number |
| `CtrMode.CtrBe.CipherBytes` | source/botan/ctr.cpp:84-118 | the output is the input with the next bytes of one infinite keystream, for every length and counter width |
| `CtrMode.CtrBe.GenerateKeystream` | source/botan/ctr.cpp:120-147 | the next bytes of the same keystream; calls of both kinds may be mixed |
| `CtrMode.CtrBe.SetIv` | source/botan/ctr.cpp:149-159 | the keystream of the zero-padded IV from its beginning |
| `CtrMode.CtrBe.Seek` | source/botan/ctr.cpp:208-258 | from any keyed state, the position is the offset |
| `ChachaBlocks.AheadAhead` | source/botan/chacha_simd32.cpp:199-202 | moving the 64-bit counter on twice is moving it on by the sum, the carry into word 13 included |
| `ChachaBlocks.LaneCounter` | source/botan/chacha_simd32.cpp:16-36 | the compare-and-add of a lane is the carry of the counter |
| `ChachaBlocks.BlocksSplit` | source/botan/chacha.cpp:111-199 | the output of n blocks is that of any split |
| `ChachaBlocks.ScalarBlock` | source/botan/chacha.cpp:132-198 | one block is the block function of section 2.3 of RFC 8439 |
| `ChachaBlocks.LanesDoubleRound` | source/botan/chacha_simd32.cpp:38-158 | a double round in registers is a double round in every lane |
| `ChachaBlocks.LaneBlocks` | source/botan/chacha_simd32.cpp:14-203 | n lanes give n successive blocks and the counter after them, for any number of lanes |
| `ChachaBlocks.Chacha` | source/botan/chacha.cpp:111-199 | the dispatcher gives the same blocks on every processor |
| `ChachaExamples.QuarterRoundExample` | source/botan/chacha.cpp:20-33 | section 2.1.1 of RFC 8439 on its numbers |
| `ChachaExamples.BlockExample` | source/botan/chacha.cpp:111-369 | section 2.3.2 of RFC 8439: the 64 bytes of block 1 from the key and nonce bytes |
| `ChachaExamples.DerivedKeyExample` | source/botan/chacha.cpp:324-369 | the HChaCha20 example of the XChaCha20 draft, from the key and nonce bytes |
| `ChachaStream.BlocksAreKey` | source/botan/chacha.cpp:111-199 | whole blocks are a stretch of the keystream |
| `ChachaStream.ChachaCipher.SetIv` | source/botan/chacha.cpp:324-369 | the keystream of key and IV from its beginning, for IVs of 0, 8, 12 and 24 bytes; other lengths are refused |
| `ChachaStream.ChachaCipher.GenerateKeystream` | source/botan/chacha.cpp:224-243 | the next bytes of the keystream |
| `ChachaStream.ChachaCipher.CipherBytes` | source/botan/chacha.cpp:204-222 | the input with the next bytes of the keystream, so successive calls equal one |
| `ChachaStream.ChachaCipher.Seek` | source/botan/chacha.cpp:382-397 | from any keyed state, the position is the offset plus 2^38 for each time word 13 has moved up; the right place if and only if it has not |
| `ChachaStream.SeekBackMisses` | source/botan/chacha.cpp:382-397 | for every key and IV, seeking to 2^38 and back to 0 ends at 2^38 |
| `ChachaPoly.OpenSeal` | source/botan/chacha20poly1305.cpp:76-173 | opening a sealed message gives it back, for every nonce length the mode accepts |
| `ChachaPoly.OpenOnlySealed` | source/botan/chacha20poly1305.cpp:136-173 | what opens was sealed |
| `ChachaPoly.MacLayout` | source/botan/chacha20poly1305.cpp:76-134 | what is authenticated: additional data and ciphertext, each filled up with fewer than 16 zeros, then both lengths; the older form for nonces of eight bytes |
| `ChachaPoly.SealLayout` | source/botan/chacha20poly1305.cpp:76-127 | every sealed byte is the plaintext byte with its byte of the blocks from number 1 on; the tag is under the front of block 0 |
| `ChachaPoly.ModeIsLawful` | source/imconee/cipher_ss.cpp:118-145 | the mode is an AEAD as the Shadowsocks theorems assume one |
| `ChachaPoly.ChachaPolyMode.Start` | source/botan/chacha20poly1305.cpp:76-103 | a new message under the nonce; other nonce lengths are refused |
| `ChachaPoly.ChachaPolyMode.FinishEncrypt` | source/botan/chacha20poly1305.cpp:112-127 | the last piece and the tag of the whole message |
| `ChachaPoly.ChachaPolyMode.FinishDecrypt` | source/botan/chacha20poly1305.cpp:136-173 | plaintext exactly when the tag of the whole ciphertext matches |
| `ChachaPoly.SealInPieces` | source/botan/chacha20poly1305.cpp:105-127 | sealing does not depend on how the message is cut |
| `ChachaPoly.OpenInPieces` | source/botan/chacha20poly1305.cpp:129-173 | nor does opening, with unrelated pieces |
| `ChachaPoly.SealMessage` | source/imconee/cipher_ss.cpp:118-145 | the pieces the filter makes give the sealed message |
| `ChachaPoly.OpenMessage` | source/imconee/cipher_ss.cpp:118-145 | likewise for opening; bytes passed on before the tag is checked are a prefix of the message |
| `AesCircuits.SboxIsFips197` | source/botan/aes.cpp:85-217 | the circuit of 113 gates is the S-box of FIPS 197: the affine map of the multiplicative inverse |
| `AesCircuits.InverseOnBits` | source/botan/aes.cpp:85-364 | the inverse circuit undoes the circuit on every byte |
| `AesCircuits.InverseOnWords` | source/botan/aes.cpp:85-364 | likewise on 32 bytes at once |
| `AesSlices.ShiftTwoAtOnce` | source/botan/aes.cpp:409-448 | two words packed into one are shifted as they are one by one |
| `AesSlices.InvShiftRowsUndoes` | source/botan/aes.cpp:409-448 | the delta swaps in reverse order undo the row shift |
| `AesSlices.TransposeBit` | source/botan/aes.cpp:366-381 | which bit of which word every bit comes from |
| `AesSlices.TransposeTwice` | source/botan/aes.cpp:366-381 | transposing twice changes nothing |
| `AesSlices.KsExpandIsTranspose` | source/botan/aes.cpp:383-407 | the shortened expansion is the transposition of the doubled key |
| `AesSlices.MixTwice` | source/botan/aes.cpp:450-500 | mixing twice is multiplication by the circulant (05, 00, 04, 00) |
| `AesSlices.InvMixUndoes` | source/botan/aes.cpp:450-500 | inv_mix_columns undoes mix_columns |
| `AesSlices.MixLinear` | source/botan/aes.cpp:450-500 | both are linear |
| `AesSlices.DecryptionKeys` | source/botan/aes.cpp:622-647 | InvMixColumn on the words of a round key, expanded, is inv_mix_columns of the expanded key |
| `AesLanes.SboxLane` | source/botan/aes.cpp:85-217 | the circuit does SubBytes to each of the two blocks |
| `AesLanes.ShiftLane` | source/botan/aes.cpp:409-427 | shift_rows does ShiftRows to each of the two blocks |
| `AesLanes.MixLane` | source/botan/aes.cpp:450-467 | mix_columns does MixColumns to each of the two blocks |
| `AesLanes.InvMixLane` | source/botan/aes.cpp:469-500 | inv_mix_columns does InvMixColumns to each of the two blocks |
| `AesLanes.TransposeLane` | source/botan/aes.cpp:366-381 | the slices of two transposed blocks show their bytes as the states of FIPS 197 |
| `AesInverse.InvMixUndoes` | source/botan/aes.cpp:450-500 | InvMixColumns undoes MixColumns on every state |
| `AesInverse.KeyWords` | source/botan/aes.cpp:716-727 | the decryption keys are the round keys in reverse, all but the outer two through InvMixColumns |
| `AesInverse.EqInvCipherUndoes` | source/botan/aes.cpp:505-620 | section 5.3.5 of FIPS 197: the equivalent inverse cipher with those keys undoes the cipher, for any round keys |
| `Aes.SeWordIsSubWord` | source/botan/aes.cpp:649-665 | SE_word is SubWord |
| `Aes.RotationCommutes` | source/botan/aes.cpp:700-714 | rotating after the substitution is rotating before it |
| `Aes.RoundConstants` | source/botan/aes.cpp:672-681 | the table of round constants is the powers of x |
| `Aes.ExpandKey` | source/botan/aes.cpp:667-714 | the loops compute the key expansion of section 5.2 of FIPS 197 for all three key lengths |
| `Aes.ReverseKeys` | source/botan/aes.cpp:716-727 | the loops compute the decryption keys |
| `Aes.EncryptBatch` | source/botan/aes.cpp:519-559 | one turn of the loop enciphers both blocks of the batch, whatever the other block is |
| `Aes.DecryptBatch` | source/botan/aes.cpp:579-619 | one turn of the loop deciphers both blocks of the batch |
| `Aes.EncryptN` | source/botan/aes.cpp:505-560 | for every number of blocks, in place or not, every block is the cipher of FIPS 197 of its input |
| `Aes.DecryptN` | source/botan/aes.cpp:565-620 | likewise with the equivalent inverse cipher |
| `Aes.DecipherUndoesCipher` | source/botan/aes.cpp:505-620 | with the two schedules of one key, decryption undoes encryption on every block |
| `Aes.RoundTrip` | source/botan/aes.cpp:505-740 | a key schedule, an encryption and a decryption of any number of blocks in place give back the blocks |
| `AesExamples.CipherExample` | source/botan/aes.cpp:505-714 | appendix B of FIPS 197, from the key and plaintext bytes to the ciphertext bytes |
| `AesExamples.LongGroup2` | source/botan/aes.cpp:667-714 | appendix A.3 of FIPS 197: the first two groups of words for a key of eight words, with the additional substitution |
| `AesExamples.MiddleGroup2` | source/botan/aes.cpp:667-714 | appendix A.2 of FIPS 197: the first two groups for a key of six words |

## Left out

- Sockets, name resolution, threads, timing, the processor detection and the file system are not modelled; socket and
  transport results are arbitrary values, and the processor features of the ChaCha and GHASH code are parameters.
- Salt generation and key derivation of the Shadowsocks pipe are not modelled: the salt is a parameter and both sides
  start from the same key.
- The `incdec` counter and `close` of the pipe, `processing_thread::close`, the chain of threads in `handler::bridge`,
  `chunk_buffer::assign` and the arenas' debug counters are not modelled.
- `mf` and `rs` of a null pointer and an exhausted C heap are not modelled: `malloc` and `realloc` succeed, and the
  address they answer with is a parameter.
- The lock bit of the arena is not modelled: allocating and freeing are atomic.
- RwSpinlock.MutualExclusion: threads have distinct ids that are not zero and fit the field, give back only what they hold,
  and hold fewer locks at a time than the counters of the word can count.
- Recycling of queue nodes is not modelled: every node is fresh. The counters next to Head and Tail do not wrap.
- The vector permutation form of GHASH and of AES, the hardware AES and the byte-reversed keys it needs, and the hash
  functions are not modelled.
- SIMD loads, stores and byte shuffles are taken as the reordering they are for; the lanes of the 8- and 16-lane
  ChaCha code are covered by a number of lanes.
- Views (`std::span`) into buffers are modelled by the bytes they show. The local word arrays of the AES code are
  values that are reassigned; its key arrays and the data are arrays, and input and output may be the same array.
- SsCryptor.SkipBuffer.Append: the move to the front is an ascending copy; what `memcpy` does when the two ranges overlap is not
  part of this model.
- CtrMode.CtrBe.CipherBytes: the block cipher under the counter mode is an arbitrary function on blocks.
- AlignmentBuffers.AlignmentBuffer.HandleUnalignedData: a buffer that defers its final block is not modelled; Poly1305 does not use one.
- SlotTables.ProcessingThread.TickBegin: which pairs can be registered is a parameter, and so is what becomes of a pair in `ProcessSlot`.
- TcpReceivers.TcpReceiver.RecvExact: how often it waits is a parameter; it answers None where the loop of the code would go on waiting.
- SsChunks.StreamDelivered: the AEAD is any pair of functions for which opening undoes sealing and a sealed block is 16 bytes
  longer; `ModeIsLawful` gives one.
- SlotTables.BridgeTurn: what the next thread does with a slot without pipes is not modelled.
- GCM mode set-up, the configuration parser, IPv6 text parsing, path clean-up, command line and logging are not
  modelled.
