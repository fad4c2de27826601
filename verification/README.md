# A verified model of memguard

memguard keeps secrets in guarded buffers and encrypted enclaves. This project models five parts of it that depend on
each other, and proves what holds over all inputs, all runs and all interleavings:

- **Guarded buffers** (`Auxiliary`, `BufferSpec`, `Buffers`): page rounding, the layout of guard, canary, data and guard
  in one memory array, the lifecycle under failing system calls, the canary check.
- **The registry and tearing down** (`Registry`, `Pools`, `Teardown`): the list that `remove` shifts in place, `Purge`
  under arbitrary failures, `Exit`.
- **The session key and enclaves** (`Crypto`, `SessionSpec`, `Core`, `Clients`): the coffer that is split anew in place,
  key epochs, sealing and opening.
- **Streams and reader loops** (`StreamSpec`, `Streams`, `ReaderSpec`, `Readers`, `StreamRuns`, `StreamLaws`): the chunked
  encrypted queue with push-back, and the two growing loops over arbitrary readers, which `Flush` runs over the stream itself.
- **Concurrency** (`CofferInterleavings`, `ExitInterleavings`, `LockOrder`, `LockUse`): every interleaving of views, rekeys, inits,
  destructions, key creations and purges on the session's coffers, at the grain of single bytes; the same beside an `Exit`;
  and every interleaving of the lock instructions of all operations. Beside safety, each operation is proved to do its
  work: no step is idle, none leaves an operation early, and what it has done at its end is stated.

Code that changes state is a class or a method with loops: `Buffers.Buffer` (all slices alias one array),
`Registry.BufferList` (a backing array shifted in place), `Pools.Pool`, `Core.Coffer`, `Core.Session`,
`Streams.Stream`, `Readers.Reader`. Their methods are proved against functions on values in the `…Spec` modules and in
`Teardown`. The theorems about whole runs are proved about step functions on values (`BufferSpec.Step`,
`SessionSpec.Step`, `StreamRuns.Step`), and methods are tied to these steps: `Buffers.Buffer` by its contracts,
`Core.Session` by `Clients.Client`, a caller with its buffers and enclaves whose every call is proved to be one
`SessionSpec.Step`, and streams by `StreamSpec` and by `Readers.Flush`. `Pools.Pool.Valid` is the invariant that every
method of a failure-free session keeps: all buffers healthy and apart in memory, and the list holding exactly the live
ones, each once.

How the outside world appears:

- The hash is an arbitrary function to 32 bytes. The secret box is an arbitrary pair of functions; claims that need it
  assume `Crypto.Lawful` (16 bytes longer, opens exactly what was sealed under the same key and nonce). Claims about lost
  keys assume `Crypto.Separates` between the lost key and a later one. `Crypto.LawfulBoxExists` gives a concrete box that
  meets both, so nothing rests on an unproved assumption.
- Random bytes (key partitions, masks, nonces, canaries, scrambled data) are parameters.
- The operating system is a parameter that grants or refuses each call. Memory is handed out zeroed
  (core/buffer_test.go:45). In `Pools`, `Core`, `Streams`, `Readers` and the concurrent models all calls are granted.
- A foreign `io.Reader` is a finite script of arbitrary answers, each a function of the room it is offered, followed by
  EOF for ever.

Facts about the code that the proofs brought out, each with its exact condition:

- The mask expression rounds correctly in 64-bit arithmetic if and only if the sum does not overflow
  (`Auxiliary.Round64IsLeastMultipleIff`).
- `Copy` is documented to be identical to the builtin copy, but it works front to back, as the loop of
  `subtle.ConstantTimeCopy` does. Inside one array the two agree if and only if the target does not begin behind the
  source, or the source repeats itself over the overlap (`Crypto.ForwardIsBuiltinIff`; `Crypto.CopyIsNotBuiltin` is an
  input on which they differ).
- `NewBufferFromReaderUntil` is documented to return an error met before the delimiter, but it ignores an error that
  comes together with a byte (buffer.go:140-142). It treats errors as documented if and only if none comes along with a
  byte other than the delimiter (`ReaderSpec.UntilReportsFirstErrorIff`; `ReaderSpec.UntilLosesError` is a reader whose
  error is lost).
- An `Open` that fails to decrypt leaves two buffers registered, the unused output and the view of the key
  (core/enclave.go:121-124); the contracts of `Core.Session.Open`, of stream reads and of the reader loops count them.
- `Purge` hangs if and only if it comes back to a buffer that it failed to destroy (`Teardown.TurnsDone`); without
  duplicates in the list it cannot.
- After a `Purge` the next use makes a new key if and only if at least one of the two partitions was destroyed
  (`Teardown.PurgeSession`). Otherwise both are zeroed and off the list, and the session key is the hash of 32 zeroes
  from then on, through all later purges (`SessionSpec.WipedKeyStays`).
- `Exit` destroys the buffers of its snapshot without the lock of their coffer (core/exit.go:70-75). A view can be torn if
  and only if `Exit` runs and some thread asks for a key (`ExitInterleavings.TornViewIff`).
- A move from a slice of the buffer's own inner pages wipes that slice. It leaves the canary check passing if and only if
  the canary bytes in the slice were zero (`BufferSpec.MoveWithinIntactIff`), so always for slices of the data.
- `Seal` asks for the key mutex while it holds a buffer lock (core/enclave.go:86-90). A circular wait is reachable if
  and only if some buffer is both sealed and in the snapshot of a purge (`LockOrder.CircularWaitIff`).

## Model

| member | source | states |
|---|---|---|
| `Auxiliary.MaskClearsRemainder` | core/auxiliary.go:13-15 | clearing the low bits with a two's complement mask subtracts the remainder modulo the power of two, for every integer |
| `Auxiliary.RoundIsLeastMultiple` | core/auxiliary.go:13-15 | for every power-of-two page the mask expression is the least page multiple not below the length, less than a page above it |
| `Auxiliary.Round64IsLeastMultipleIff` | core/auxiliary.go:13-15 | in 64-bit arithmetic that holds exactly when length plus page minus one does not overflow |
| `Crypto.DecryptEncrypt` | core/crypto.go:15-80 | round trip of the framing: ciphertext is plaintext plus 40, and it decrypts exactly into the outputs that can hold it |
| `Crypto.FramingErrors` | core/crypto.go:27-80 | which error comes when, in the order of the checks, for both directions |
| `Crypto.DecryptOnlyEncryptions` | core/crypto.go:53-80 | decryption succeeds if and only if the input is an encryption under this very key of something that fits |
| `Crypto.DecryptUnderOtherKey` | core/crypto.go:53-80 | a ciphertext does not decrypt under a separated key |
| `Crypto.LawfulBoxExists` | core/crypto.go:27-80 | the assumptions made about the secret box can be met |
| `Crypto.Wipe` | core/crypto.go:100-109 | exactly the slice becomes zero |
| `Crypto.Copy` | core/crypto.go:112-120 | as many bytes as both slices hold are copied front to back, across arrays or inside one, everything else stays |
| `Crypto.Move` | core/crypto.go:123-126 | as a copy, and the whole source is zero afterwards, with what of the target overlaps it |
| `Crypto.ForwardBytes` | core/crypto.go:112-120 | every byte of an overlapping copy: behind its source it repeats the bytes in front of the target |
| `Crypto.ForwardIsBuiltinIff` | core/crypto.go:111-120 | inside one array the copy is the builtin one exactly when the target does not begin behind the source or the source repeats itself over the overlap |
| `Crypto.CopyIsNotBuiltin` | core/crypto.go:111-120 | an input on which the copy is not the builtin one |
| `Crypto.Equal` | core/crypto.go:129-131 | an accumulating comparison that never stops early decides equality of slices, lengths included |
| `BufferSpec.FreshIsSound` | core/buffer.go:46-102 | a new buffer: guard, canary and data partition whole pages, data zeroed and ending where the guard begins, canary made of the random bytes, repeated in both guards and shorter than a guard page, check passes, flags truthful |
| `BufferSpec.CanaryCheckIsExact` | core/buffer.go:203-216 | destruction reports an overflow exactly when guards and canary disagreed before, the wipe in between having no influence |
| `BufferSpec.DestroyOutcome` | core/buffer.go:189-240 | destruction succeeds exactly on a dead buffer or with every call granted and an intact canary; which refusal gives which error, and the whole state each leaves |
| `BufferSpec.DestroyWipesData` | core/buffer.go:203-240 | once the pages could be opened the data is zero in every outcome, and a failed destruction leaves the buffer alive |
| `BufferSpec.NoFalseOverflow` | core/buffer.go:121-240 | no run of copies, scrambles, wipes, freezes, melts and failed destructions ever leads to an overflow report |
| `BufferSpec.StrayWriteDetected` | core/buffer.go:203-216 | any change confined to the canary or one guard is always reported, whatever else happened to the data, and the data is wiped |
| `BufferSpec.StepKeepsHealth` | core/buffer.go:121-240 | with granted calls every operation keeps the flags truthful and the canary intact, and destruction clears every field |
| `BufferSpec.CopyWithinKeepsIntact` | buffer.go:266-275 | a copy from a slice of the buffer's own inner pages cannot disturb the canary |
| `BufferSpec.MoveWithinIntactIff` | buffer.go:287-296 | a move from a slice of the buffer's own inner pages leaves the check passing exactly when the canary bytes in the slice were zero |
| `BufferSpec.MoveWithinKeepsIntact` | buffer.go:287-296 | a move from a slice of the buffer's own data, which wipes part of it, cannot disturb the canary |
| `BufferSpec.StoreWrites` | buffer.go:266-275 | a store into open pages changes exactly its bytes of the data; closed pages stop it and nothing changes |
| `BufferSpec.CopyAtWrites` | buffer.go:266-275 | as many bytes as fit are written at the offset; a destroyed buffer, an offset out of range and closed pages leave everything |
| `BufferSpec.WipeErases` | buffer.go:312-321 | open data becomes all zero; closed pages stop it and nothing changes |
| `BufferSpec.ScrambleFills` | core/buffer.go:170-174 | open data becomes the random bytes; closed pages stop it and nothing changes |
| `BufferSpec.CopyWithinWrites` | buffer.go:266-275 | a copy from the buffer's own pages: every byte written has its origin in the memory before, all others stay |
| `BufferSpec.MoveWithinWrites` | buffer.go:287-296 | a move does that and then zeroes its source |
| `BufferSpec.FreezeAndMelt` | core/buffer.go:121-161 | a granted request closes or opens the pages, a refused one changes nothing and is the error |
| `BufferSpec.FrozenBytesStay` | core/buffer.go:121-137 | over every run without a melt or a destruction the bytes of a frozen buffer stay |
| `BufferSpec.StoreKeepsHealth` | buffer.go:266-275 | a store into the data region changes just those bytes of the data and nothing the canary check looks at |
| `BufferSpec.LifecycleRun` | core/buffer.go:85-240 | over every run with granted calls the mutable flag tells the page protection, guards are closed, and a buffer is dead exactly from its destruction on |
| `Buffers.Buffer.constructor` | core/buffer.go:53-95 | for a positive size, allocation lays out and fills one aliased memory array as specified, healthy, zeroed and writable |
| `Buffers.AllocateRegion` | core/buffer.go:77-83 | the canary is repeated at the start of both guards by copies inside one array |
| `Buffers.Buffer.Freeze` | core/buffer.go:121-137 | whole new state under a granted or refused call; frozen if healthy and granted; bytes unchanged |
| `Buffers.Buffer.Melt` | core/buffer.go:146-161 | whole new state under a granted or refused call; writable if healthy and granted; bytes unchanged |
| `Buffers.Buffer.CopyAt` | buffer.go:266-275 | whole new state: destroyed buffer, offset out of range, closed page, partial copy and a source inside the buffer's own inner pages included |
| `Buffers.Buffer.MoveAt` | buffer.go:287-296 | as the copy, and the source is zeroed unless a store was stopped, also when it lies in the buffer's own inner pages |
| `Buffers.Buffer.Scramble` | core/buffer.go:170-174 | the data becomes the given random bytes, or a closed page stops it and nothing changes |
| `Buffers.Buffer.Wipe` | buffer.go:312-321 | the data becomes all zero, or a closed page stops it and nothing changes |
| `Buffers.Buffer.CanaryHolds` | core/buffer.go:212-216 | the two comparisons decide whether the guards agree and the canary repeats their start |
| `Buffers.Buffer.Destroy` | core/buffer.go:189-240 | whole new state for every combination of refused calls and canary failure, and the error told from the state before |
| `Buffers.Buffer.IsDestroyed` | core/buffer.go:257-261 | the nil data slice tells a destroyed buffer |
| `Registry.RemoveFirstIsDeletion` | core/buffer.go:289-299 | without duplicates, first-match deletion removes that element and nothing else |
| `Registry.BufferList.Add` | core/buffer.go:270-275 | the list is extended at its end, in place or in a larger array |
| `Registry.BufferList.Snapshot` | core/buffer.go:278-286 | a copy in an array of its own |
| `Registry.BufferList.Remove` | core/buffer.go:289-299 | shifting the backing array in place deletes the first match |
| `Registry.BufferList.Exists` | core/buffer.go:302-307 | decides membership |
| `Registry.BufferList.Flush` | core/buffer.go:310-320 | the list is empty, its former contents are returned in an array of their own |
| `Pools.Pool.NewBuffer` | core/buffer.go:46-102 | a size below one is refused and changes nothing; any other adds one live, zeroed buffer to the list |
| `Pools.Pool.AllocateFresh` | core/buffer.go:53-102 | for a positive size, adds one live, zeroed buffer in fresh memory whose canary is made of the next random bytes |
| `Pools.Pool.Allocate` | core/buffer.go:53-102 | for a positive size, adds one live, zeroed buffer in fresh memory; the list stays exactly the live buffers, each once |
| `Pools.Pool.Destroy` | core/buffer.go:181-187 | the buffer is dead and off the list, which stays exactly the live buffers, each once |
| `SessionSpec.SplitValue` | core/coffer.go:50-72 | a new coffer shows the first scrambled left partition, for every hash |
| `SessionSpec.ResplitValue` | core/coffer.go:99-126 | one rekey with any mask leaves the value unchanged |
| `SessionSpec.ResplitChanges` | core/coffer.go:99-126 | a rekey XORs the mask into the right partition, so any mask but zero changes it, and the same mask again undoes it |
| `SessionSpec.RekeyKeepsValue` | core/coffer.go:50-126 | any number of rekeys with any masks and any hash leaves the value at the first scrambled left partition |
| `SessionSpec.OpenSealed` | core/enclave.go:44-138 | a sealed enclave has plaintext plus 40 and at least 41 bytes, so the invalid-length panic is out of reach, and opens to its plaintext |
| `SessionSpec.SealedShape` | core/crypto.go:43-50 | an enclave begins with its nonce, under which the rest opens; different nonces give different enclaves |
| `SessionSpec.OpensOnlySealed` | core/enclave.go:107-131 | an enclave opens to a plaintext exactly if it was sealed from it, under this key and some nonce |
| `SessionSpec.StepEffects` | core/enclave.go:13-131 | what each operation of a run does to buffers, enclaves and key, all else staying |
| `SessionSpec.RunTracks` | core/enclave.go:13-131 | through any run, purges with failures included, the session has the sealing key if no purge could reach it, and else none or a separated one |
| `SessionSpec.OpensExactlyUntilPurge` | core/enclave.go:13-131 | after any mix of buffer operations, sealing, opening, rekeys and purges under any failures, an enclave opens to exactly the sealed bytes if no purge came, and fails to decrypt if one did, unless its key had resisted an earlier purge, when it opens for ever |
| `SessionSpec.WipedKeyStays` | core/exit.go:30-52 | once both partitions have resisted a purge, the session key is the hash of 32 zeroes through all later rekeys and purges |
| `Core.Coffer.CombineInto` | core/coffer.go:84-91 | the byte loop of a view fills the buffer with the value of the partitions, which stay as they are |
| `Core.Coffer.Init` | core/coffer.go:50-72 | afterwards the right partition is the scrambled one and the left one masked by its hash, or the coffer is expired |
| `Core.Coffer.Rekey` | core/coffer.go:99-126 | afterwards the right partition is the former one XOR the mask and the left one the matching one, although the loops overwrite their own input |
| `Core.Coffer.Destroyed` | core/coffer.go:165-182 | decides whether the key is gone |
| `Core.Session.NewCoffer` | core/coffer.go:28-47 | three fresh registered buffers of 32 bytes holding the split of the scrambled bytes |
| `Core.Session.GetOrCreateKey` | core/enclave.go:13-22 | the live key, or a new one whose three buffers join the list |
| `Core.Session.View` | core/coffer.go:77-94 | expired, or one registered buffer with the value of the key, and the key unchanged |
| `Core.Session.NewEnclave` | core/enclave.go:44-72 | seals under the session key with the given nonce in front, wipes exactly the slice, net effect on the registry nil apart from a key made on demand |
| `Core.Session.NewEnclaveOf` | core/enclave.go:44-72 | the same on a slice of the writable bytes of a buffer, which is wiped in its place |
| `Core.Session.Seal` | core/enclave.go:77-100 | the buffer's bytes are sealed with the given nonce in front, and it is dead and off the registry; a destroyed one is refused |
| `Core.Session.Open` | core/enclave.go:114-131 | on success exactly one new registered buffer with the plaintext; on failure exactly the two buffers that stay behind |
| `Core.Session.OpenFrozen` | enclave.go:42-52 | the opened buffer is frozen, decryption failure is the only error, and the list grows by exactly one buffer or the two left behind |
| `Core.Session.Rekey` | core/coffer.go:99-126 | the mask is XORed into the right partition of the session key, its value stays, every other buffer and the registry untouched |
| `Clients.Client.NewBuffer` | core/buffer.go:46-102 | is the step of the run model |
| `Clients.Client.WriteBuffer` | buffer.go:280-296 | is the step of the run model, all other buffers, the key and the enclaves unchanged |
| `Clients.Client.DestroyBuffer` | core/buffer.go:181-187 | is the step of the run model, all other buffers, the key and the enclaves unchanged |
| `Clients.Client.NewEnclave` | core/enclave.go:44-72 | is the step of the run model, all buffers unchanged |
| `Clients.Client.SealBuffer` | core/enclave.go:77-100 | is the step of the run model, all other buffers unchanged |
| `Clients.Client.OpenEnclave` | core/enclave.go:107-131 | is the step of the run model, all older buffers unchanged |
| `Clients.Client.Rekey` | core/coffer.go:99-126 | is the step of the run model, all buffers unchanged |
| `Clients.Client.Purge` | core/exit.go:17-60 | is the step of the run model for granted calls |
| `Teardown.PurgeOneLeavesNoSecret` | core/exit.go:32-51 | a purged buffer is gone, or zeroed, or unchanged with both requests to open it refused |
| `Teardown.PurgeBuffer` | core/exit.go:32-51 | one round of the loop, for all answers of the system |
| `Teardown.TurnsDone` | core/exit.go:29-53 | the loop hangs if and only if it revisits a buffer it failed to destroy; otherwise each buffer got one turn and errors exist exactly if some destruction failed |
| `Teardown.PurgeOutcome` | core/exit.go:17-60 | a list without duplicates: never hangs, panics exactly when a destruction failed, told from the states before, with all errors in order; each buffer gone, zeroed or twice refused |
| `Teardown.TurnsErrors` | core/exit.go:33-38 | the errors are those of all failing destructions, in the order of the list |
| `Teardown.PurgeSnapshot` | core/exit.go:29-53 | the loop with its locks held to the end computes those turns on the buffers in memory |
| `Teardown.PurgeList` | core/exit.go:29-53 | the list is empty afterwards, whatever failed |
| `Teardown.GrantedPurge` | core/exit.go:17-60 | with granted calls and healthy buffers nothing fails and all are dead |
| `Teardown.Purge` | core/exit.go:17-60 | the session has no key, no live buffer and an empty list, and is ready for use |
| `Teardown.PurgePoolFailing` | core/exit.go:17-60 | under any failures: an empty list, no hang, an error exactly when a destruction failed, each buffer as its one turn left it |
| `Teardown.KeyAfterPurge` | core/exit.go:30-52 | under any failures the key is gone exactly when at least one of its two partitions was destroyed; else both are 32 zeroes |
| `Teardown.PurgeSession` | core/exit.go:17-60 | the same for the session in memory, where the key is as the step of the run model leaves it |
| `Teardown.LaterPurge` | core/exit.go:17-60 | a later purge, under any failures, of a list that the partitions have left does not change a byte of them, as the run model says |
| `Teardown.OpenOrPanic` | core/enclave.go:107-131 | a ciphertext of invalid length, and only that, purges the session and panics; otherwise the contents of the list as well are those of the open |
| `Teardown.DestroyPartitions` | core/coffer.go:131-162 | under any failures, nil partitions included: each partition's new state, the joined errors, and only destroyed partitions off the list |
| `Teardown.DestroyKey` | core/coffer.go:131-162 | with granted calls the three buffers of the key are dead and off the list |
| `Teardown.DestroyAll` | core/exit.go:69-75 | although each destruction shifts the list in place, the detached snapshot meets every buffer and the list ends empty |
| `Teardown.Exit` | core/exit.go:65-79 | key first, then all other buffers: none is alive |
| `StreamSpec.ChunksPartition` | stream.go:65-77 | chunks partition the input in order, sizes 1 to c, count the rounded-up quotient |
| `StreamSpec.WriteDraws` | stream.go:65-77 | the enclaves written begin with the next nonces, in order |
| `StreamSpec.ReadDraws` | stream.go:88-114 | a read draws one nonce, for what it puts back in front, or none |
| `StreamSpec.ReadRefines` | stream.go:88-150 | one read of the encrypted stream, push-back and stale chunks included, is one read of the plain queue |
| `Streams.TailStartsAtIndex` | stream.go:69-71 | the tail slice of the last round begins exactly at the loop index |
| `Streams.Stream.Write` | stream.go:65-77 | the loop appends the sealed chunks of the input, never a nil enclave, each beginning with a nonce of its own, and zeroes the whole source |
| `Streams.Stream.Pop` | stream.go:36-43 | the front of the queue is taken off, nil if there is none |
| `Streams.Stream.Next` | stream.go:137-150 | the next chunk in a frozen registered buffer, EOF, or the error of a stale chunk, which is dropped and leaves two buffers listed |
| `Streams.Stream.PushBack` | stream.go:103-107 | what did not fit is sealed again in front; no buffer stays behind |
| `Streams.Stream.Read` | stream.go:88-114 | the specified answer and new queue; a successful read leaves no buffer registered, one that meets a stale chunk the two of the failed open |
| `Streams.Stream.ReadInto` | stream.go:88-114 | only the returned bytes of the caller's buffer change |
| `Streams.Stream.Size` | stream.go:117-126 | the sum of the sizes of the queued enclaves |
| `ReaderSpec.RoomIsPositive` | buffer.go:166-206 | the capacity is a multiple of the page, and each read is offered at least one byte and at most a page |
| `ReaderSpec.PullProgress` | buffer.go:166-206 | every answer with data or without error leaves less to pull, so both loops end, also over a stream that re-seals leftovers |
| `ReaderSpec.EntireIsAllDelivered` | buffer.go:162-208 | for any reader: the result is all bytes delivered up to and including the first error, which is nil exactly if it is EOF |
| `ReaderSpec.UntilStopsAtDelimiter` | buffer.go:103-155 | for any reader: all bytes before the first delimiter, with nil error exactly when it was found |
| `ReaderSpec.UntilReportsFirstErrorIff` | buffer.go:98-155 | for any reader: the first error met ends the loop, as documented, exactly when no error comes along with a byte other than the delimiter |
| `ReaderSpec.UntilLosesError` | buffer.go:140-142 | a reader whose error is lost |
| `Readers.NewBufferFromEntireReader` | buffer.go:162-208 | the loop over page-wise growing guarded buffers computes that result in a frozen buffer, or the null buffer if empty; the list grows by the result, a key made on the way and the two buffers of a stale chunk, and by nothing else |
| `Readers.NewBufferFromReaderUntil` | buffer.go:103-155 | the byte-wise loop over growing guarded buffers computes that result in a frozen buffer, or the null buffer if empty, with the same effect on the list |
| `Readers.Flush` | stream.go:153-155 | the loop run over the stream itself is the flush step of the run model, with the same effect on the list |
| `StreamRuns.EntireOfPlain` | buffer.go:162-208 | on the plain queue: the readable bytes in front of the first lost chunk, its error, only it dropped |
| `StreamRuns.UntilOfPlain` | buffer.go:103-155 | on the plain queue: the bytes before the first delimiter, exactly those behind it left |
| `StreamRuns.FlushLaw` | stream.go:88-155 | flush over mixed key epochs: leading readable chunks and the error of the first stale one, later chunks kept; without one everything, nil error and an empty stream |
| `StreamRuns.UntilLaw` | stream.go:88-114 | reading a stream up to a delimiter returns what is before it and leaves exactly what is behind it queued |
| `StreamRuns.StreamRefinesFifo` | stream.go:65-155 | over every run of writes, reads, flushes, delimiter reads, rekeys and purges, resisted ones included, the stream answers as a queue of byte strings that a purge makes unreadable, for all random bytes, page and chunk sizes |
| `StreamLaws.PlainAnswers` | stream.go:65-155 | the answer of every operation in closed form: which bytes, which error, what stays queued |
| `StreamLaws.KeyAnswers` | core/coffer.go:99-126 | in a run a rekey splits the key anew and keeps its value, a purge that meets the key takes it or leaves it wiped |
| `StreamLaws.PurgedIsUnreadable` | stream.go:137-150 | after a purge that meets the key the next chunk is reported broken, whatever it holds |
| `StreamLaws.StreamConserves` | stream.go:65-155 | over every run, purges included: what was taken or dropped unread, followed by what is queued, is what was written, in order; the size counts all queued bytes, of stale chunks too; the key opens exactly the readable ones |
| `StreamLaws.SizeLaw` | stream.go:117-126 | over every run from any stream, with no assumption about keys: size before plus bytes written is bytes taken plus sizes of dropped chunks plus size after |
| `StreamLaws.StreamIsByteQueue` | stream.go:65-155 | while no purge meets the key, what was taken out followed by what the queue decrypts to is what was written, in order, and the size is the difference |
| `CofferInterleavings.StepKeeps` | core/coffer.go:50-182 | every atomic step of every thread, byte by byte, keeps the invariant of locks, partitions and values |
| `CofferInterleavings.NoTornView` | core/coffer.go:50-126 | in no interleaving of views, rekeys, inits, destructions, key creations and purges is a dead partition used, and every view shows the coffer's value |
| `CofferInterleavings.OperationsTakeEffect` | core/coffer.go:50-162 | in every interleaving: an operation that gave up found the coffer gone; a finished rekey has XORed the scrambled mask into the right partition, a finished init set value and partition, a finished destruction left nothing of its coffer and a finished purge nothing of any |
| `CofferInterleavings.AnythingBegins` | core/coffer.go:50-162 | an idle thread can begin any operation on any coffer |
| `CofferInterleavings.StaysOnCourse` | core/coffer.go:50-162 | a thread never leaves an operation before its last stage |
| `CofferInterleavings.StepCounts` | core/coffer.go:50-162 | a thread in an operation waits for a taken lock or comes strictly closer to the end |
| `CofferInterleavings.PartitionsStayAlive` | core/coffer.go:50-126 | from the destroyed check to the unlock all three partitions are alive, and no other thread works on that coffer |
| `CofferInterleavings.ViewsAgree` | core/coffer.go:50-126 | from any reachable state, along any two interleavings in which no init begins, all completed views of a coffer and all readings of its unlocked partitions give the same bytes |
| `ExitInterleavings.ExitDestroysAll` | core/exit.go:65-79 | when an exit is done nothing is left of any coffer that there was at its snapshot |
| `ExitInterleavings.SafeWithoutExit` | core/exit.go:65-79 | without an exit every interleaving keeps the invariant of locks, partitions and values |
| `ExitInterleavings.SafeWithoutKey` | core/exit.go:65-79 | with an exit, but no thread that asks for a key, no thread ever comes past a check |
| `ExitInterleavings.TornViewIff` | core/exit.go:65-79 | a view can be torn if and only if an exit runs and some thread asks for a key |
| `LockOrder.OperationsAreOrdered` | core/enclave.go:13-131 | if no buffer is both sealed and purged, every operation, exit and streams with the purge of their panic included, takes stream, sealed buffer, key mutex, coffer, other buffer or list in this order, for all branches, and releases everything |
| `LockUse.LocksTaken` | core/buffer.go:115-320 | exactly which locks each operation takes, for all branches |
| `LockUse.ProgramsAreGuarded` | core/coffer.go:50-162 | everything a view, rekey, init or destruction does lies under the lock of its coffer, everything of a purge under the key mutex, everything of a stream operation under the lock of its stream |
| `LockOrder.NoCircularWait` | core/exit.go:20-54 | under that condition no reachable state of any number of threads has a circular wait |
| `LockOrder.NeverStuck` | core/exit.go:20-54 | under that condition, while an operation is unfinished some thread can take a step |
| `LockOrder.SealCanDeadlock` | core/enclave.go:86-90 | for every buffer that is both sealed and purged, a run that ends in a circular wait |
| `LockOrder.CircularWaitIff` | core/enclave.go:86-90 | a circular wait is reachable if and only if some buffer is both sealed and in the snapshot of a purge |

## Left out

- Foreign code: XSalsa20-Poly1305, BLAKE2b, the random source and memcall appear only through their interfaces.
- Failing allocation, `mlock`, random source or page protection inside `NewBuffer`, `NewCoffer`, `Init` and `Rekey`, which
  lead to `Panic`: the session and stream models assume that these succeed.
- BufferSpec.NoFalseOverflow: moves whose source reaches into the canary are the subject of
  `BufferSpec.MoveWithinIntactIff`.
- Buffers.Buffer.constructor: sizes are unbounded integers, and every system call is granted; sizes below one are the
  subject of `Pools.Pool.NewBuffer`, 64-bit overflow that of `Auxiliary.Round64IsLeastMultipleIff`.
- Pools.Pool.Allocate: sizes below one are the subject of `Pools.Pool.NewBuffer`.
- Core.Session.NewEnclave: the slice is the caller's own memory; a buffer's own bytes are the subject of
  `Core.Session.NewEnclaveOf`, where frozen bytes, whose wiping stops the process, are left out.
- Core.Session.NewEnclaveOf: frozen bytes, as above.
- Core.Session.OpenFrozen: enclaves of fewer than 41 bytes, which sealing never makes.
- Core.Session.Open: for an enclave of fewer than 41 bytes, which sealing never makes, it reports an error; the purge and
  the panic are the subject of `Teardown.OpenOrPanic`.
- SessionSpec.WipedKeyStays: a rekey of a wiped key whose mask buffer is gone, which stops the process, counts as a rekey.
- Clients.Client.WriteBuffer: the client's buffers are writable; frozen ones are the subject of `Buffers.Buffer.CopyAt`.
- Clients.Client.Purge: system calls succeed; failures are the subject of `Teardown.PurgeSession`.
- Teardown.Purge: system calls succeed, as above. The warning printed for a buffer that cannot be opened is not modelled.
- Teardown.OpenOrPanic: the purge before the panic is granted its system calls.
- Teardown.DestroyKey: system calls succeed; failures are the subject of `Teardown.DestroyPartitions`.
- Teardown.Exit: the end of the process itself, and a `Destroy` that fails and panics.
- Streams.Stream.Write: data inside a buffer's own memory.
- Streams.Stream.ReadInto: a target inside a buffer's own memory, except as the reader loops use it.
- Readers.NewBufferFromEntireReader: a foreign reader that never reports an error, over which the loop would not end.
- Readers.NewBufferFromReaderUntil: the same restriction.
- CofferInterleavings.NoTornView: system calls succeed; making the new coffer under the key mutex is one step, because
  nobody else can reach it yet; a purge sweeps the partitions one by one in any order, other buffers do not appear. `Exit`
  is the subject of `ExitInterleavings`. Coffers that a caller makes with `NewCoffer` for itself are left out.
- LockOrder.CircularWaitIff: read locks count as exclusive. Partitions and views of keys, which callers never hold, are
  never sealed.
- `Panic` from inside `View`, which would ask for the coffer lock again: it needs a failing system call.
- The ticker: a rekey may happen at any step of a run, its timing is not modelled.
- `NewBufferFromReader`, `NewBufferFromBytes`, `NewBufferRandom`, `NewEnclaveRandom`: thin compositions that would add
  easy members.
- The typed views of a buffer (`Uint16` to `Int64`, `ByteArray8` to `ByteArray64`, `String`, `Reader`) and `EqualTo`:
  easy members.
- Signals, finalizers, constant-time behaviour and core dumps.
