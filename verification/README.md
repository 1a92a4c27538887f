# rktio, verified

A model, in Dafny 4.11, of the portable core of `rktio` (Racket's C layer for I/O,
`racket/racket/src/rktio`) and of one path routine of Scribble, with proofs of what their data
structures, codecs and small concurrent protocols are for.

System calls are steps that may succeed, fail or interleave in any way their specification allows;
the code around them is modelled statement by statement, in classes and loops where the source has
them.

| file | what it models |
|---|---|
| `Probing.dfy`, `HashTable.dfy` | the open-addressed hash table: double hashing, removal marks, and set and rehash calling each other, as a finite map |
| `Ltps.dfy`, `LtpsPollLoop.dfy` | the long-term poll set (epoll): the table of handle pairs, the interest set of the kernel, the chain of signaled handles |
| `WideCodec.dfy`, `WideMeaning.dfy` | the extended UTF-8 / UTF-16 codec and its measure-then-fill callers |
| `Sha.dfy`, `Sha1.dfy`, `Sha2.dfy` | SHA-1, SHA-224 and SHA-256 as FIPS 180-4 defines them, and the buffered, unrolled code |
| `ShaMeaning.dfy`, `ShaExamples.dfy` | what the functions and constants of those definitions are, as numbers, bits and roots of primes, and two known digests |
| `ChildStatus.dfy`, `ChildWorker.dfy`, `ChildProtocol.dfy` | the records of child processes, the SIGCHLD worker, and every interleaving of clients, children and the worker |
| `ChildDescriptors.dfy` | moving a child's descriptors to 0, 1 and 2 |
| `CommandLine.dfy` | quoting and joining a Windows command line, and Microsoft's rules for splitting it |
| `PendingOpen.dfy` | the record shared by an opening thread and the owners of its result |
| `InotifyReads.dfy`, `Inotify.dfy`, `InotifyDelivery.dfy` | reading events into a growing buffer, many file-system-change events on one inotify descriptor, and which of them arrive |
| `BackgroundSleep.dfy` | the hand-over between a client and the thread that sleeps for it |
| `PollSet.dfy` | the `poll` variant of descriptor sets, as a map to event masks |
| `NormalizePath.dfy` | `NormalizePath` of `scribble-common.js` |

`dafny verify dfyconfig.toml` checks everything. Bytes and words are bit vectors where the code
masks and shifts, unbounded integers with explicit remainders where it counts.

## Where the code falls short

Some properties one would expect do not hold on every input. Each but the last is stated with the exact
condition under which it does, proved both necessary and sufficient, and with an input or a run at which
it does not.

- `rktio_hash_set` stops at the first slot without a value, a removed one included, so the test on
  line 156 is never reached. A key that is present behind such a slot gets a second slot
  (`Buckets.SetContractExact`; `HashTables.SecondSlot` gets there from a new table). The long-term poll
  set only sets absent keys.
- `rktio_hash_remove` takes a never-used slot for key 0 (`Buckets.RemoveCountExact`,
  `HashTables.MiscountedRemove`).
- `rktio_hash_free` ends its loop before slot 0, so a value there is not freed
  (`HashTables.HashTable.FreedSlots`, `HashTables.UnfreedValue`).
- The bit counter of SHA-1 miscounts some updates of 2^29 bytes or more (`Sha1Context.CountExact`,
  `Sha1Context.CountedTwice`), the byte counter of SHA-2 every update of 2^32 or more
  (`Sha2Context.TotalExact`, `Sha2Context.NotCounted`).
- A program name with quote characters can hide or split the arguments after it, because backslash
  escapes do not apply to the program name (`CommandLines.ArgumentsReceived`). Windows paths have none.
- `do_open_in_thread` means to turn cancelation off around everything but `open`, and its comments say
  so; but it passes `PTHREAD_CANCEL_DISABLE` to `pthread_setcanceltype`, which has no such type, so
  cancelation stays enabled (where the constant has the value of `PTHREAD_CANCEL_ASYNCHRONOUS`, it even
  becomes asynchronous). A cancelation in the cleanup then leaks the record. So when the last owner lets go,
  the record is sure to be freed if and only if the open is done by then, or the thread has its handler and
  has not called `open` yet (`PendingOpenProtocol.LastReleaseFrees`). A caller can make sure of the first by
  `rktio_pending_open_poll` (`PendingOpenProtocol.DoneNeverLeaks`). Safety does not depend on it
  (`PendingOpenProtocol.RecordSafe`). An owner may let go before the handler is installed, since
  `pthread_cond_wait` may return early and the code does not look again.
- `rin_pull_events` doubles its buffer when an event does not fit, and a later read may then return
  several events, of which it looks at the first only. A watch is added with `IN_ONESHOT`; since Linux 2.6.36
  it queues `IN_IGNORED` right after the event it fires with, and either of the two makes the slot ready. So a
  watch is lost only when one read takes both after some other event, and that takes a name of 16 bytes or more
  in a watched directory (`InotifyDelivery.EventsDelivered`, `InotifyDelivery.NameLosesEvent`; for one queue,
  exactly, `InotifyDelivery.QueueDelivered`). Before 2.6.36 there was one event only, and any name would do.
  "Ready" is exact for the events that are looked at.
- `rktio_ltps_remove_all` empties the table and leaves the interest set of the kernel as it is. A later
  `rktio_ltps_poll` finds no pair for a descriptor that is ready, changes nothing, and is told of it again: it
  ends if and only if nothing reported has lost its pair (`LtpsPollLoop.PollEnds`,
  `LtpsPollLoop.StaleInterest`). `scheme_release_fd_semaphores` (`racket/racket/src/bc/src/thread.c`, line 4099)
  polls right after removing all, unless it polled a moment ago.
- When `pthread_create` fails, `rktio_start_sleep` fails once, but has stored the background record by
  then: the next start succeeds with no thread, and its end waits forever (`BackgroundSleep.NeverStuck`,
  `BackgroundSleep.StuckForever`).
- The moves that clear 0 and 1 in a child can pass through 2, 3 or 4, and close what was open there, even
  when it was to be inherited (`ChildDescriptors.Descriptors.PrepareChild` says exactly which,
  `ChildDescriptors.DescriptorRunOver`).
- On an unexpected error of `waitpid`, the worker follows `next` where it means `next_unused`
  (`rktio_process.c`, line 311). `ChildProtocol.UnusedUnreaped` shows that the child waited for there is
  never already reaped.

## Model

| member | source | states |
|---|---|---|
| Probing.ProbeIsMasked | racket/racket/src/rktio/rktio_hash.c:83-93 | for a power-of-two size the start, the step and the next slot of a probe are what the bit masks of the code compute |
| Probing.AdvanceIsMask | racket/racket/src/rktio/rktio_hash.c:93 | the masked addition is the sum modulo the size |
| Probing.WalkInjective | racket/racket/src/rktio/rktio_hash.c:93-94 | with an odd step over a power of two, equal probe positions are at least a whole table apart |
| Probing.ProbeReturn | racket/racket/src/rktio/rktio_hash.c:94-97 | the probe is back at its start exactly after as many steps as there are slots, so the wrap test neither stops early nor loops |
| Probing.ProbeSurjective | racket/racket/src/rktio/rktio_hash.c:83-94 | every slot is visited before the probe wraps |
| Probing.VisitedCount | racket/racket/src/rktio/rktio_hash.c:83-94 | the first n probes are n different slots |
| Buckets.FindIsLookup | racket/racket/src/rktio/rktio_hash.c:79-103 | the search from any well-formed table, removal marks and all, answers what the finite map answers |
| Buckets.FindLive | racket/racket/src/rktio/rktio_hash.c:87-100 | a live key is found in its own slot |
| Buckets.FindDead | racket/racket/src/rktio/rktio_hash.c:88-99 | a search for an absent key comes back with a slot exactly when the key is 0 and some slot was never used |
| Buckets.SetFindsSlot | racket/racket/src/rktio/rktio_hash.c:150-174 | with one slot free the set loop ends at a usable slot: `use_hc` is never -1 at line 174 |
| Buckets.SetUpdates | racket/racket/src/rktio/rktio_hash.c:137-176 | under its contract a set is a map update, keeps the table well formed and the count right |
| Buckets.SetContractExact | racket/racket/src/rktio/rktio_hash.c:151-171 | a set keeps the table well formed if and only if the key is absent or its slot comes before every slot without a value |
| Buckets.RemoveUpdates | racket/racket/src/rktio/rktio_hash.c:114-117 | vacating what the search finds removes the key and nothing else |
| Buckets.RemoveOnlyEmpties | racket/racket/src/rktio/rktio_hash.c:114-118 | removing without a rehash empties the slot of the key and fills none |
| Buckets.RemoveCountExact | racket/racket/src/rktio/rktio_hash.c:114-117 | the decrement of `count` is right if and only if the key is present, or is not 0, or no slot is still unused |
| Buckets.CountIsSize | racket/racket/src/rktio/rktio_hash.c:42-45 | `count` is the number of keys of the map |
| HashTables.HashTable.constructor | racket/racket/src/rktio/rktio_hash.c:19-22 | a new table is the empty map, without an array |
| HashTables.HashTable.IsEmpty | racket/racket/src/rktio/rktio_hash.c:42-45 | true if and only if the map is empty |
| HashTables.HashTable.Get | racket/racket/src/rktio/rktio_hash.c:79-103 | the loop over the array returns the value of the map |
| HashTables.HashTable.Rehash | racket/racket/src/rktio/rktio_hash.c:60-77 | rehashing keeps the map and the count; growing nests no further rehash and shrinking at most one; a size below 16 does nothing |
| HashTables.HashTable.Set | racket/racket/src/rktio/rktio_hash.c:137-181 | a set is a map update through every growth, with the exact new size and count, and terminates with the rehash it may call |
| HashTables.HashTable.Place | racket/racket/src/rktio/rktio_hash.c:144-180 | the probe loop of set, from an allocated array |
| HashTables.HashTable.MaybeGrow | racket/racket/src/rktio/rktio_hash.c:178-179 | growth at half full doubles the array and keeps the map |
| HashTables.HashTable.Remove | racket/racket/src/rktio/rktio_hash.c:105-135 | a remove deletes the key from the map, shrinks at a quarter full unless told not to, and touches nothing when the key is absent |
| HashTables.HashTable.Vacate | racket/racket/src/rktio/rktio_hash.c:114-122 | what the removing branch does to the map, the count and the size |
| HashTables.HashTable.GetKey | racket/racket/src/rktio/rktio_hash.c:52-58 | the key of a live raw slot, or -1 exactly when the slot holds none |
| HashTables.HashTable.FreedSlots | racket/racket/src/rktio/rktio_hash.c:29-33 | freeing the values reaches every slot but slot 0, so all values if and only if that one holds none |
| HashTables.RunHistory | racket/racket/src/rktio/rktio_hash.c:79-181 | every history of gets, sets and removes, told to rehash or not, gives the answers and leaves the contents of a finite map up to the first operation that breaks the contract of set or remove on the slots it finds; a history that sets absent keys only and removes key 0 only when present breaks none |
| HashTables.SecondSlot | racket/racket/src/rktio/rktio_hash.c:151-171 | set 0, set 16, remove 0, set 16 on a new table: key 16 has two live slots |
| HashTables.MiscountedRemove | racket/racket/src/rktio/rktio_hash.c:114-117 | removing key 0 from a table that holds only key 1 would leave a count of 0 with one key live |
| HashTables.UnfreedValue | racket/racket/src/rktio/rktio_hash.c:29-33 | on a table that holds key 0 no value is freed |
| LtpsModel.EventConsumes | racket/racket/src/rktio/rktio_ltps.c:509-525 | an event that takes a handle leaves strictly fewer registered, and moves handles only to where their auto mode sends them |
| LtpsModel.MovedByMode | racket/racket/src/rktio/rktio_ltps.c:88-102 | a handle that any call but a creation has moved was registered, and is chained, zeroed or freed as its auto mode says |
| LtpsPollSets.PollKeeps | racket/racket/src/rktio/rktio_ltps.c:510-525 | over any events: which registered handles keep their place |
| LtpsPollSets.ReportHits | racket/racket/src/rktio/rktio_ltps.c:506-525 | when the kernel mask is that of the handles, any reported event finds a handle to take |
| LtpsPollSets.Ltps.constructor | racket/racket/src/rktio/rktio_ltps.c:121-139 | an opened poll set is empty and valid |
| LtpsPollSets.Ltps.SignalHandle | racket/racket/src/rktio/rktio_ltps.c:88-102 | a signaled handle is chained, zeroed or freed as its auto mode says, no other handle moves, and the chain stays linked |
| LtpsPollSets.Ltps.GetSignaledHandle | racket/racket/src/rktio/rktio_ltps.c:175-184 | the head of the chain is returned once, or the chain was empty |
| LtpsPollSets.Ltps.TakeRead | racket/racket/src/rktio/rktio_ltps.c:510-517 | an event takes the read handle of a pair |
| LtpsPollSets.Ltps.TakeWrite | racket/racket/src/rktio/rktio_ltps.c:518-525 | an event takes the write handle of a pair |
| LtpsPollSets.Ltps.Take | racket/racket/src/rktio/rktio_ltps.c:510-525 | the handles an event takes, at least one: the read handle for In, Hup or Err, the write handle for Out, Hup or Err |
| LtpsPollSets.Ltps.Settle | racket/racket/src/rktio/rktio_ltps.c:526-536 | after an event the pair is dropped when empty, and the kernel set agrees with the table again |
| LtpsPollSets.Ltps.Dispatch | racket/racket/src/rktio/rktio_ltps.c:506-539 | one event: a read handle of its descriptor stays registered exactly when the event has none of In, Hup and Err, a write handle when it has none of Out, Hup and Err, and handles of other descriptors keep their place; the invariant holds again |
| LtpsPollSets.Ltps.Poll | racket/racket/src/rktio/rktio_ltps.c:488-544 | the poll loop terminates, dispatches every event the kernel reports until there is none, keeps the invariant, and reports a hit exactly when some handle was taken; a read handle stays registered exactly when no reported event of its descriptor has In, Hup or Err, a write handle when none has Out, Hup or Err |
| LtpsPollSets.Ltps.EnsurePair | racket/racket/src/rktio/rktio_ltps.c:272-275 | the pair of a descriptor, made on demand |
| LtpsPollSets.Ltps.MakeRead | racket/racket/src/rktio/rktio_ltps.c:333-374 | a new read handle is registered with the kernel, or gone again on EPERM, with no empty pair left |
| LtpsPollSets.Ltps.MakeWrite | racket/racket/src/rktio/rktio_ltps.c:386-421 | the same for a write handle |
| LtpsPollSets.Ltps.RemoveFd | racket/racket/src/rktio/rktio_ltps.c:283-326 | removing a descriptor signals its handles and takes it out of table and kernel set |
| LtpsPollSets.Ltps.Add | racket/racket/src/rktio/rktio_ltps.c:203-434 | rktio_ltps_add in every mode and error case, mode by mode: which handle a check hands out and that it makes none, where a new handle is registered and the interest asked of the kernel for it, what a removal and each failure leave; other descriptors are untouched, and the kernel set is in step with the table afterwards |
| LtpsPollSets.AddIs | racket/racket/src/rktio/rktio_ltps.c:203-434 | the same mode by mode on the table and the places of the handles |
| LtpsPollSets.Ltps.EvictSlot | racket/racket/src/rktio/rktio_ltps.c:710-721 | one raw slot evicted without a rehash: its handles are signaled, no other slot moves |
| LtpsPollSets.Ltps.RemoveAll | racket/racket/src/rktio/rktio_ltps.c:701-725 | walking the raw slots while removing empties the table and signals every registered handle once |
| LtpsPollLoop.PollEnds | racket/racket/src/rktio/rktio_ltps.c:497-541 | on any interest set that is right for the pairs there are, the poll loop ends within a bound if and only if no descriptor the kernel reports has lost its pair |
| LtpsPollLoop.NeverQuiet | racket/racket/src/rktio/rktio_ltps.c:497-541 | while one has, no way the loop can go ends: the descriptor is still reported after any number of turns |
| LtpsPollLoop.ValidEnds | racket/racket/src/rktio/rktio_ltps.c:497-541 | a valid poll set has lost none |
| LtpsPollLoop.StaleInterest | racket/racket/src/rktio/rktio_ltps.c:701-725 | a poll set on which remove_all leaves an interest without a pair |
| LtpsPollLoop.StaleSpins | racket/racket/src/rktio/rktio_ltps.c:497-541 | the poll loop on it, of any length |
| LtpsPollSets.Ltps.Close | racket/racket/src/rktio/rktio_ltps.c:153-173 | after closing, no handle is registered or chained |
| WideSpec.EncodedIsWellFormed | racket/racket/src/rktio/rktio_wide.c:231-259 | what is written for a value is one well-formed character with that value |
| WideSpec.ParsedIsEncoded | racket/racket/src/rktio/rktio_wide.c:59-124 | a well-formed character is what is written for its value |
| WideSpec.ParseEncoded | racket/racket/src/rktio/rktio_wide.c:44-264 | parsing the encoding of a list of values gives the list back |
| WideSpec.EncodeParsed | racket/racket/src/rktio/rktio_wide.c:44-264 | encoding what was parsed gives the bytes back |
| WideSpec.DecodeEncode | racket/racket/src/rktio/rktio_wide.c:44-264 | decoding the encoding of any 16-bit sequence, surrogates paired or not, gives the sequence back |
| WideSpec.EncodeDecode | racket/racket/src/rktio/rktio_wide.c:44-264 | encoding what a byte string decodes to gives the byte string back |
| WideSpec.AcceptedExactly | racket/racket/src/rktio/rktio_wide.c:44-264 | the byte strings the decoder accepts are exactly the encodings |
| WideSpec.DecodeShrinks | racket/racket/src/rktio/rktio_wide.c:44-191 | decoding never yields more units than bytes |
| WideMeaning.OneByteIs | racket/racket/src/rktio/rktio_wide.c:232-233 | a value below 0x80 is written as one byte, itself |
| WideMeaning.TwoBytesAre | racket/racket/src/rktio/rktio_wide.c:234-236 | one below 0x800 as two bytes, whose payloads are its digits in base 64 |
| WideMeaning.ThreeBytesAre | racket/racket/src/rktio/rktio_wide.c:237-240 | one below 0x10000 as three |
| WideMeaning.FourBytesAre | racket/racket/src/rktio/rktio_wide.c:241-245 | any other as four |
| WideMeaning.PairIs | racket/racket/src/rktio/rktio_wide.c:203-216 | the value of a surrogate pair, as a number |
| WideCodec.PutChar | racket/racket/src/rktio/rktio_wide.c:217-260 | one character is counted, or written, with the length and bytes the specification gives |
| WideCodec.NextValue | racket/racket/src/rktio/rktio_wide.c:203-216 | pairs are joined and lone surrogates let through |
| WideCodec.Utf16ishToUtf8ish | racket/racket/src/rktio/rktio_wide.c:196-264 | the encoder loop computes the specified encoding; without a buffer it returns the length it writes with one, and all writes are below it |
| WideCodec.Feed | racket/racket/src/rktio/rktio_wide.c:59-124 | one byte moves the decoder along a well-formed character; it is refused only when no well-formed character starts with the bytes so far |
| WideCodec.Emit | racket/racket/src/rktio/rktio_wide.c:126-177 | a finished value is output, held back or refused as the surrogate rules say |
| WideCodec.Utf8ishToUtf16ish | racket/racket/src/rktio/rktio_wide.c:44-191 | the decoder loop returns -1 exactly on byte strings that do not decode, and otherwise measures or writes the decoded units within the measured length |
| WideCodec.WideBuffer.ConvertToWchar | racket/racket/src/rktio/rktio_wide.c:268-300 | measure, choose or replace the shared buffer, fill: the result holds the converted string and fits |
| WideCodec.ConvertFromWchar | racket/racket/src/rktio/rktio_wide.c:302-319 | measure and fill give the encoding of the string with its terminator |
| WideCodec.EncodeSplitsAtNul | racket/racket/src/rktio/rktio_wide.c:273-307 | the terminator is encoded by itself, so string lengths survive |
| WideCodec.ConversionRoundTrip | racket/racket/src/rktio/rktio_wide.c:268-319 | a byte string that converts to wide characters converts back to itself, and both have their only terminator at the end |
| WideCodec.WideRoundTrip | racket/racket/src/rktio/rktio_wide.c:268-319 | any wide string converts to bytes, terminator included, that convert back to it |
| Sha.ZeroCountLeast | racket/racket/src/rktio/rktio_sha1.c:243-246 | the number of zero bytes of padding is the least that leaves room for the length |
| Sha.FoldAppend | racket/racket/src/rktio/rktio_sha1.c:216-222 | folding over a concatenation is folding over its parts |
| Sha.AbsorbShort | racket/racket/src/rktio/rktio_sha1.c:225 | data that does not fill the buffer is absorbed by buffering it |
| Sha.AbsorbFill | racket/racket/src/rktio/rktio_sha1.c:216-221 | data that completes a block is absorbed by compressing it |
| Sha.WordOfIs | racket/racket/src/rktio/rktio_sha1.c:107-112 | a word of four bytes is the number they write, high byte first |
| Sha.BytesOfIs | racket/racket/src/rktio/rktio_sha1.c:251-255 | the bytes of a word write it, high byte first |
| Sha.Bytes32Is | racket/racket/src/rktio/rktio_sha1.c:239-242 | the bytes of a length are those that write it, high byte first |
| Sha1Transform.RoundRenamed | racket/racket/src/rktio/rktio_sha1.c:117-121 | one round under any naming of the registers is the standard round |
| Sha1Transform.Blk0 | racket/racket/src/rktio/rktio_sha1.c:107-112 | the first use of a word swaps it to big-endian order: the schedule of the standard |
| Sha1Transform.Blk | racket/racket/src/rktio/rktio_sha1.c:113-114 | expanding in place over sixteen words gives the 80-word schedule |
| Sha1Transform.R0 | racket/racket/src/rktio/rktio_sha1.c:117 | a round of the first sixteen |
| Sha1Transform.R1 | racket/racket/src/rktio/rktio_sha1.c:118 | a round from 16 to 19 |
| Sha1Transform.R2 | racket/racket/src/rktio/rktio_sha1.c:119 | a round from 20 to 39 |
| Sha1Transform.R3 | racket/racket/src/rktio/rktio_sha1.c:120 | a round from 40 to 59 |
| Sha1Transform.R4 | racket/racket/src/rktio/rktio_sha1.c:121 | a round from 60 to 79 |
| Sha1Transform.Transform | racket/racket/src/rktio/rktio_sha1.c:134-187 | the unrolled, renamed, in-place form (section 6.1.3 of FIPS 180-4) equals the compression of section 6.1.2 |
| Sha1Context.CountExact | racket/racket/src/rktio/rktio_sha1.c:213-215 | the two-word bit count is right if and only if the length is below 2^29 or the low words do carry |
| Sha1Context.CountedTwice | racket/racket/src/rktio/rktio_sha1.c:213-215 | from zero, an update of 2^29 bytes is counted as twice as long |
| Sha1Context.Sha1Ctx.constructor | racket/racket/src/rktio/rktio_sha1.c:190-200 | the initial context |
| Sha1Context.Sha1Ctx.Count | racket/racket/src/rktio/rktio_sha1.c:212-215 | the buffered bytes, and the new count |
| Sha1Context.Sha1Ctx.TakeBlocks | racket/racket/src/rktio/rktio_sha1.c:216-222 | the buffered block completed and whole blocks compressed |
| Sha1Context.Sha1Ctx.Update | racket/racket/src/rktio/rktio_sha1.c:203-230 | an update appends its data to the message the context stands for |
| Sha1Context.Sha1Ctx.AppendPadding | racket/racket/src/rktio/rktio_sha1.c:239-247 | the bytes appended are the padding of section 5.1.1 of FIPS 180-4 |
| Sha1Context.Sha1Ctx.Final | racket/racket/src/rktio/rktio_sha1.c:233-262 | the digest written is the SHA-1 of the whole message, and the context is wiped |
| Sha1Context.HashChunks | racket/racket/src/rktio/rktio_sha1.c:203-262 | however a message is split into updates below 2^29 bytes, the digest is that of the message |
| Sha1Meaning.RotationsAre | racket/racket/src/rktio/rktio_sha1.c:102 | the three rotations, as numbers |
| Sha1Meaning.ChIs | racket/racket/src/rktio/rktio_sha1.c:117-118 | the function of the first rounds, bit by bit: a choice |
| Sha1Meaning.MajIs | racket/racket/src/rktio/rktio_sha1.c:120 | the function of rounds 40 to 59, bit by bit: the majority |
| Sha1Meaning.ConstantsAre | racket/racket/src/rktio/rktio_sha1.c:117-121 | the constants of the rounds are the square roots of 2, 3, 5 and 10 in units of 2^-30 |
| Sha1Meaning.InitialIs | racket/racket/src/rktio/rktio_sha1.c:193-198 | the initial value, byte by byte |
| Sha1Abc.Sha1OfAbc | racket/racket/src/rktio/rktio_sha1.c:76-79 | the first test vector: the digest of "abc" |
| Sha2Process.P | racket/racket/src/rktio/rktio_sha2.c:140-145 | the round macro under any naming of the cells is the standard round |
| Sha2Process.R | racket/racket/src/rktio/rktio_sha2.c:134-138 | the schedule macro gives the 64-word schedule |
| Sha2Process.ProcessSmaller | racket/racket/src/rktio/rktio_sha2.c:157-169 | the loop that rotates its registers equals the compression of section 6.2.2 of FIPS 180-4 |
| Sha2Process.Process | racket/racket/src/rktio/rktio_sha2.c:170-200 | the loop unrolled by eight equals the same compression, hence the rotating loop |
| Sha2Context.TotalExact | racket/racket/src/rktio/rktio_sha2.c:222-226 | the two-word byte count is right if and only if the length is below 2^32 |
| Sha2Context.NotCounted | racket/racket/src/rktio/rktio_sha2.c:222-226 | from zero, an update of 2^32 bytes is not counted at all |
| Sha2Context.BitsAre | racket/racket/src/rktio/rktio_sha2.c:274-279 | the length written is the message length in bits |
| Sha2Context.PaddingIs | racket/racket/src/rktio/rktio_sha2.c:281-282 | the padding length is one more than the least number of zeros |
| Sha2Context.Sha2Ctx.constructor | racket/racket/src/rktio/rktio_sha2.c:67-97 | the initial contexts of SHA-224 and SHA-256 |
| Sha2Context.Sha2Ctx.Count | racket/racket/src/rktio/rktio_sha2.c:219-226 | the buffered bytes, and the new total |
| Sha2Context.Sha2Ctx.FillBuffer | racket/racket/src/rktio/rktio_sha2.c:228-238 | a buffered block is completed when there is one |
| Sha2Context.Sha2Ctx.TakeBlocks | racket/racket/src/rktio/rktio_sha2.c:240-247 | whole blocks are compressed from the data |
| Sha2Context.Sha2Ctx.Update | racket/racket/src/rktio/rktio_sha2.c:208-253 | an update appends its data to the message the context stands for |
| Sha2Context.Sha2Ctx.AppendPadding | racket/racket/src/rktio/rktio_sha2.c:274-288 | the bytes appended are the padding of section 5.1.1 of FIPS 180-4 |
| Sha2Context.Sha2Ctx.Finish | racket/racket/src/rktio/rktio_sha2.c:266-302 | the digest written is that of the whole message, 28 or 32 bytes, and nothing beyond it |
| Sha2Context.HashChunks | racket/racket/src/rktio/rktio_sha2.c:208-302 | however a message is split into updates below 2^32 bytes, the digest is that of the message |
| Sha2Meaning.Big0Is | racket/racket/src/rktio/rktio_sha2.c:125-131 | bit i of the first sigma function of the rounds is the exclusive or of the three bits FIPS 180-4 names |
| Sha2Meaning.Big1Is | racket/racket/src/rktio/rktio_sha2.c:125-132 | the same for the second |
| Sha2Meaning.Small0Is | racket/racket/src/rktio/rktio_sha2.c:125-128 | the same for the first of the schedule, where the bits shifted in are 0 |
| Sha2Meaning.Small1Is | racket/racket/src/rktio/rktio_sha2.c:125-129 | the same for the second of the schedule |
| Sha2Meaning.PrimesAre | racket/racket/src/rktio/rktio_sha2.c:102-120 | the primes below 312 are the 64 in the table, and no other numbers |
| Sha2Meaning.RoundConstantsAre | racket/racket/src/rktio/rktio_sha2.c:102-120 | each constant is the first 32 bits after the point of the cube root of its prime |
| Sha2Meaning.Initial256Is | racket/racket/src/rktio/rktio_sha2.c:74-83 | the initial value is the first 32 bits after the point of the square roots of the first eight primes |
| Sha2Meaning.Initial224Is | racket/racket/src/rktio/rktio_sha2.c:84-95 | that of SHA-224 is the second 32 bits of those of the ninth to sixteenth |
| Sha256Abc.Sha256OfAbc | racket/racket/src/rktio/rktio_sha2.c:66-302 | the digest of "abc" under SHA-256 |
| ChildTables.StatusOf | racket/racket/src/rktio/rktio_process.c:63-72 | the status of a child that exited, was killed or was stopped |
| ChildTables.GroupSignals.Add | racket/racket/src/rktio/rktio_process.c:496-529 | one more count for the handle, in its slot, a free slot or a longer array |
| ChildTables.GroupSignals.Grow | racket/racket/src/rktio/rktio_process.c:511-520 | a full array is replaced by a longer one with the same counts |
| ChildTables.GroupSignals.Remove | racket/racket/src/rktio/rktio_process.c:531-543 | one count less for the handle, and for no other |
| ChildTables.GroupSignals.SignalAll | racket/racket/src/rktio/rktio_process.c:545-554 | every handle that counts is signaled, each once |
| ChildTables.ChildStatuses.AddChildStatus | racket/racket/src/rktio/rktio_process.c:123-159 | the status is recorded, in the record of the child or a new one, its group count dropped and its handle woken |
| ChildTables.ChildStatuses.RawGetChildStatus | racket/racket/src/rktio/rktio_process.c:161-186 | finds a record by number, done or not as asked, and drops it if asked |
| ChildTables.ChildStatuses.GetChildStatus | racket/racket/src/rktio/rktio_process.c:206-211 | takes the status of a done child out of the table |
| ChildTables.ChildStatuses.RegisterPid | racket/racket/src/rktio/rktio_process.c:214-244 | a record is made unless the child has terminated already |
| ChildTables.ChildStatuses.DoneWithProcessId | racket/racket/src/rktio/rktio_process.c:360-391 | an unfinished child moves to the unused list, a finished record is dropped |
| ChildTables.ChildStatuses.WorkerReapedOwn | racket/racket/src/rktio/rktio_process.c:324-345 | a child reaped by group is checked against the unused list before its status is recorded |
| ChildWorkers.CheckUnused | racket/racket/src/rktio/rktio_process.c:279-323 | the pass over the unused list waits for every listed child that had terminated, and drops it |
| ChildWorkers.CheckOwn | racket/racket/src/rktio/rktio_process.c:286-352 | the pass over the own group waits until none of it that terminated is left, if any child is pending |
| ChildWorkers.SignalWorkerTurn | racket/racket/src/rktio/rktio_process.c:269-354 | one turn of the worker, with children terminating at any moment: whoever it had to wait for is waited for once, and the tables change by exactly those |
| ChildWorkers.GetChildStatus | racket/racket/src/rktio/rktio_process.c:188-212 | waiting by number, recording and claiming in one call: the status is the exit code, 128 more than the number of the signal, or -1 |
| ChildProtocol.AddStatusEffect | racket/racket/src/rktio/rktio_process.c:123-159 | recording a status changes the record of that child only and keeps the group counts equal to the undone group records |
| ChildProtocol.RegisterEffect | racket/racket/src/rktio/rktio_process.c:214-244 | registering adds at most the one record, with its group count |
| ChildProtocol.ForgetEffect | racket/racket/src/rktio/rktio_process.c:368-387 | forgetting removes the one record, and puts it on the unused list if it was not done |
| ChildProtocol.StepKeepsInv | racket/racket/src/rktio/rktio_process.c:123-391 | every step of a client, the kernel or the worker keeps the invariant: one record for each child, with the right contents at each stage |
| ChildProtocol.RunInv | racket/racket/src/rktio/rktio_process.c:123-391 | the invariant holds after every run |
| ChildProtocol.StatusReported | racket/racket/src/rktio/rktio_process.c:188-244 | until a client claims or forgets a child, its status can be claimed exactly once it is reaped and recorded, the child has one record, and the status is the exit code, 128 more than the number of the signal, or -1 |
| ChildProtocol.ClaimedIsHowItEnded | racket/racket/src/rktio/rktio_process.c:63-72 | what a client claims is how the child ended, and 0 only for a child that exited with 0 |
| ChildProtocol.ClaimedOnce | racket/racket/src/rktio/rktio_process.c:744-760 | between two claims for a number, the number was given to a new child |
| ChildProtocol.KillSafe | racket/racket/src/rktio/rktio_process.c:857-946 | a signal is never sent to the number of a child that has been reaped |
| ChildProtocol.UnusedUnreaped | racket/racket/src/rktio/rktio_process.c:279-323 | every number on the unused list is of an unreaped child, and a forgotten child is reaped or on the list |
| ChildProtocol.GroupCounts | racket/racket/src/rktio/rktio_process.c:483-554 | the count of a handle is the number of its group children whose termination is not recorded |
| ChildProtocol.PendingWhileLive | racket/racket/src/rktio/rktio_process.c:288-296 | while a client may want a status, `pending_children` is positive, so the worker waits for its children |
| ChildProtocol.OwnTaken | racket/racket/src/rktio/rktio_process.c:288-296 | so once through the unused list the worker can take any terminated child whose status a client may want |
| ChildProtocol.TurnReapsForgotten | racket/racket/src/rktio/rktio_process.c:279-323 | in every run, a child forgotten by its client that has terminated when the worker wakes is reaped before the worker sleeps again |
| ChildProtocol.CanClaim | racket/racket/src/rktio/rktio_process.c:188-391 | from every state a run can reach, a client that has neither claimed nor forgotten its terminated child can still get its status, which is how the child ended, in at most five steps of its own and the worker |
| ChildDescriptors.Descriptors.ReliablyCopyOrMove | racket/racket/src/rktio/rktio_process.c:1828-1839 | a copy, or a move, of one descriptor |
| ChildDescriptors.Descriptors.FindUnused | racket/racket/src/rktio/rktio_process.c:1673-1676 | the first number that is neither of two |
| ChildDescriptors.Descriptors.MoveAside | racket/racket/src/rktio/rktio_process.c:1671-1690 | out and err are moved off 0 and 1 when those are for something else, and still refer to their files |
| ChildDescriptors.Descriptors.Assign | racket/racket/src/rktio/rktio_process.c:1694-1696 | from such numbers, the three moves put the files on 0, 1 and 2 and leave no other copy |
| ChildDescriptors.Descriptors.Standardize | racket/racket/src/rktio/rktio_process.c:1661-1696 | for every triple, equal or not, 0, 1 and 2 end up as the files that were at in, out and err |
| ChildDescriptors.Descriptors.CloseAfterFork | racket/racket/src/rktio/rktio_process.c:1875-1886 | below the limit only the three to skip stay open |
| ChildDescriptors.Descriptors.PrepareChild | racket/racket/src/rktio/rktio_process.c:1660-1716 | for every limit, 0 included, the program starts with the three files on 0, 1 and 2, and besides with exactly the descriptors from the limit on that exec does not close and the moves did not pass through, unchanged |
| ChildDescriptors.OnlyThreeInherited | racket/racket/src/rktio/rktio_process.c:1534-1544 | there are none of those when the limit is above every descriptor, or when all but the three files are closed by exec |
| ChildDescriptors.DescriptorRunOver | racket/racket/src/rktio/rktio_process.c:1671-1690 | a descriptor that was to be inherited is lost when the moves pass through its number |
| CommandLines.CmdlineProtect | racket/racket/src/rktio/rktio_process.c:1083-1138 | the two passes write the protected argument within the size the first one computes |
| CommandLines.Measure | racket/racket/src/rktio/rktio_process.c:1091-1108 | the first pass decides whether to quote and bounds what the second writes |
| CommandLines.JoinArguments | racket/racket/src/rktio/rktio_process.c:1215-1229 | the joined line fills its buffer exactly |
| CommandLines.SpawnCommandLine | racket/racket/src/rktio/rktio_process.c:1481-1488 | the command line of an argument vector: every argument protected, joined by spaces |
| CommandLines.ProtectRead | racket/racket/src/rktio/rktio_process.c:1083-1138 | under the splitting rules of Microsoft a protected argument is read back as it was and ends where it ends |
| CommandLines.SplitTail | racket/racket/src/rktio/rktio_process.c:1222-1227 | the joined, protected arguments split into the arguments |
| CommandLines.NameScan | racket/racket/src/rktio/rktio_process.c:1083-1138 | where the scan for the end of the program name stops, whatever the name |
| CommandLines.PathsAreSafe | racket/racket/src/rktio/rktio_process.c:1083-1138 | a program name without a quote character is safe |
| CommandLines.ArgumentsReceived | racket/racket/src/rktio/rktio_process.c:1083-1230 | all argument lists are received unchanged if and only if the program name is safe: its quotes leave blanks quoted and come in pairs |
| CommandLines.UnsafeName | racket/racket/src/rktio/rktio_process.c:1083-1138 | a name with one quote character hides an argument |
| PendingOpens.OpenInThread.Finish | racket/racket/src/rktio/rktio_file.c:506-517 | every attached handle is signaled and the record is done |
| PendingOpens.AttachedHas | racket/racket/src/rktio/rktio_file.c:646-659 | attaching adds the handle and loses none |
| PendingOpens.DetachedHas | racket/racket/src/rktio/rktio_file.c:664-672 | detaching removes the handle, however often it is there, and no other |
| PendingOpens.OpenInThread.Attach | racket/racket/src/rktio/rktio_file.c:640-662 | the handle is added, in a free place or a longer array, unless the open is done |
| PendingOpens.OpenInThread.Detach | racket/racket/src/rktio/rktio_file.c:664-672 | all places with the handle are emptied |
| PendingOpens.OpenInThread.Retain | racket/racket/src/rktio/rktio_file.c:682-687 | one more owner |
| PendingOpens.OpenInThread.Release | racket/racket/src/rktio/rktio_file.c:689-703 | one owner less; the caller frees exactly when the open is done and it was the last, and cancels exactly when it was the last of one not done |
| PendingOpenProtocol.StepKeepsInv | racket/racket/src/rktio/rktio_file.c:497-569 | every step of the thread and of any owner keeps the invariant |
| PendingOpenProtocol.RecordSafe | racket/racket/src/rktio/rktio_file.c:497-569 | however cancelation behaves, the record is freed at most once, nothing touches it afterwards, and the count is the number of owners |
| PendingOpenProtocol.CancelSafe | racket/racket/src/rktio/rktio_file.c:689-703 | the thread is canceled only when nobody owns the record |
| PendingOpenProtocol.LastReleaseFrees | racket/racket/src/rktio/rktio_file.c:689-703 | the code as it is: after the last owner lets go, no way to go on leaks the record if and only if the open is done by then, or the thread has installed its handler and not yet called `open` |
| PendingOpenProtocol.DoneNeverLeaks | racket/racket/src/rktio/rktio_file.c:605-615 | what a caller can check by polling: once the open is done and no cancelation was asked for, no way to go on leaks the record |
| PendingOpenProtocol.HandlerFrees | racket/racket/src/rktio/rktio_file.c:506-524 | a cancelation that finds the handler installed has the record freed by it |
| PendingOpenProtocol.CanSee | racket/racket/src/rktio/rktio_file.c:605-615 | whatever has happened, an owner that waits can come to see the open done, in at most five steps of the thread |
| PendingOpenProtocol.LeakNeedsCancelation | racket/racket/src/rktio/rktio_file.c:689-703 | every run that leaks has a last owner that let go when neither held |
| PendingOpenProtocol.ThreadGoesOn | racket/racket/src/rktio/rktio_file.c:526-569 | until it ends or is killed, the thread always has a step to take, its own or a cancelation |
| PendingOpenProtocol.LeakingRun | racket/racket/src/rktio/rktio_file.c:534-555 | a run of the code as it is that leaks the record |
| InotifySlots.InotifyState.RinFindWd | racket/racket/src/rktio/rktio_fs_change.c:305-313 | the first slot with a descriptor |
| InotifySlots.InotifyState.RinAddWd | racket/racket/src/rktio/rktio_fs_change.c:315-337 | a live descriptor is shared, a fresh one takes a free slot; the call of `abort` cannot be reached |
| InotifyReads.EverythingRead | racket/racket/src/rktio/rktio_fs_change.c:350-378 | unless a read fails, the reads together are what was queued and what arrived meanwhile, in order, and the queue is left empty |
| InotifyReads.TightSingles | racket/racket/src/rktio/rktio_fs_change.c:339-378 | starting with a buffer for one event, every read returns one event if and only if no two events in a row fit into the buffer as the events before them have made it grow |
| InotifyReads.NamelessSingles | racket/racket/src/rktio/rktio_fs_change.c:339-378 | events without names are read one at a time, whatever arrives and interrupts |
| InotifySlots.InotifyState.HandleEvent | racket/racket/src/rktio/rktio_fs_change.c:353-361 | one event: its slot, if it has one, is made ready and gives up its watch |
| InotifySlots.InotifyState.PullEvents | racket/racket/src/rktio/rktio_fs_change.c:339-385 | the loop with its growing buffer handles the first event of each read, in order; the result says whether any found a slot or a read failed, and exactly the watches of those slots are removed |
| InotifySlots.InotifyState.Grow | racket/racket/src/rktio/rktio_fs_change.c:452-475 | a full array is replaced by a longer one with free slots |
| InotifySlots.InotifyState.Add | racket/racket/src/rktio/rktio_fs_change.c:447-490 | a new or joining watcher is never ready, no other slot changes, and `count` stays the number of held slots |
| InotifySlots.InotifyState.Remove | racket/racket/src/rktio/rktio_fs_change.c:492-508 | one user less of the slot; the last one gives up the watch and handles the events that came in, so that watches are those of the live slots, and nothing else changes |
| InotifySlots.InotifyState.LetGo | racket/racket/src/rktio/rktio_fs_change.c:497-506 | what the last user of a slot does before letting go of it |
| InotifySlots.InotifyState.Poll | racket/racket/src/rktio/rktio_fs_change.c:510-525 | ready if and only if an event for the descriptor the slot was taken for has been handled; others made ready set `got` |
| InotifySlots.InotifyState.MaySleep | racket/racket/src/rktio/rktio_fs_change.c:537-548 | sleeping is refused once after any event came in |
| InotifySlots.PulledOk | racket/racket/src/rktio/rktio_fs_change.c:350-361 | events keep live descriptors apart and make ready exactly the slots they are for |
| InotifySlots.HitsLeave | racket/racket/src/rktio/rktio_fs_change.c:350-361 | after events the watches left are those of the slots still live |
| InotifySlots.ChangeMeansHit | racket/racket/src/rktio/rktio_fs_change.c:500-517 | no slot becomes ready without `got` being set |
| InotifySlots.ReadyWhenFired | racket/racket/src/rktio/rktio_fs_change.c:350-361 | a live slot becomes ready exactly when its descriptor is among the handled events |
| InotifyDelivery.PassesPull | racket/racket/src/rktio/rktio_fs_change.c:339-385 | handling the events of one call and then those of later calls is handling them all, in order |
| InotifyDelivery.DeliveredIs | racket/racket/src/rktio/rktio_fs_change.c:350-361 | every slot whose watch fired becomes ready, whatever the slots, if and only if one event for each such watch is the first of some read |
| InotifyDelivery.HeadsAreStarts | racket/racket/src/rktio/rktio_fs_change.c:339-378 | the events handled are those at the places where reads start, which are computed from the sizes of the events |
| InotifyDelivery.QueueDelivered | racket/racket/src/rktio/rktio_fs_change.c:339-378 | for every queue of fired and given-up watches read in one pass: all fired ones are handled if and only if, for each, one of its events stands where a read starts |
| InotifyDelivery.OlderQueueDelivered | racket/racket/src/rktio/rktio_fs_change.c:339-378 | with one event for each watch, that is if and only if no two events in a row fit into the buffer as it is by then |
| InotifyDelivery.EventsDelivered | racket/racket/src/rktio/rktio_fs_change.c:339-378 | whatever is queued, arrives, interrupts or fails, over any number of calls: every watch that fired is handled once its events are read, if and only if no watched directory has a name of 16 bytes or more (of 1 or more, before Linux 2.6.36) |
| InotifyDelivery.NameLosesEvent | racket/racket/src/rktio/rktio_fs_change.c:339-378 | a directory that fires with such a name and then two files: the second file is lost |
| InotifyDelivery.ApartLosesEvent | racket/racket/src/rktio/rktio_fs_change.c:339-378 | were the two events of a watch not next to each other, the shortest name would do |
| BackgroundSleep.StepKeepsInv | racket/racket/src/rktio/rktio_sleep.c:35-125 | every step of client, worker and other signals keeps the invariant of the hand-over |
| BackgroundSleep.OneWakePerStart | racket/racket/src/rktio/rktio_sleep.c:63-83 | one byte is written to `woke_fd` for every start, and between sleeps starts, bytes and ends are equal in number |
| BackgroundSleep.FieldsExclusive | racket/racket/src/rktio/rktio_sleep.c:99-103 | the client writes the fields only while the worker neither reads them nor will before the next hand-over, and the worker reads those written for its sleep |
| BackgroundSleep.NeverStuck | racket/racket/src/rktio/rktio_sleep.c:85-115 | no run has the client wait for a worker that cannot go on, such as one polling an empty pipe, if and only if the thread was created |
| BackgroundSleep.WaitEnds | racket/racket/src/rktio/rktio_sleep.c:108-115 | while the client waits, every worker step brings it closer to going on and nothing else delays it |
| BackgroundSleep.JoinEnds | racket/racket/src/rktio/rktio_sleep.c:117-125 | stopping between sleeps ends the worker |
| BackgroundSleep.SleepsFollow | racket/racket/src/rktio/rktio_sleep.c:56-115 | after every run, between sleeps, a further sleep can be started and ended: the worker polls, with fields written for this sleep, until it is told, and writes one byte |
| BackgroundSleep.FirstAndLast | racket/racket/src/rktio/rktio_sleep.c:85-125 | the first sleep starts the thread, and stopping between sleeps goes through without another byte |
| BackgroundSleep.StuckRun | racket/racket/src/rktio/rktio_sleep.c:87-106 | when the thread cannot be created, the next start reports success and its end waits in vain |
| BackgroundSleep.StuckForever | racket/racket/src/rktio/rktio_sleep.c:108-115 | such a wait never ends, whatever happens |
| PollSets.PollData.FdSet | racket/racket/src/rktio/rktio_poll_set.c:131-161 | sets the bits of the flag for one descriptor, and grows the array when full |
| PollSets.PollData.FdClr | racket/racket/src/rktio/rktio_poll_set.c:117-129 | clears the bits of the flag for one descriptor |
| PollSets.OrIs | racket/racket/src/rktio/rktio_poll_set.c:131-161 | bit by bit: what setting a flag makes of a mask |
| PollSets.LessIs | racket/racket/src/rktio/rktio_poll_set.c:117-129 | bit by bit: what clearing one makes of it |
| PollSets.PollData.FindFdPos | racket/racket/src/rktio/rktio_poll_set.c:100-115 | the position of a descriptor |
| PollSets.PollData.Clean | racket/racket/src/rktio/rktio_poll_set.c:251-269 | entries without events go, and no mask changes |
| PollSets.PollData.QSort | racket/racket/src/rktio/rktio_poll_set.c:182-209 | sorting by descriptor changes no mask |
| PollSets.MergedIs | racket/racket/src/rktio/rktio_poll_set.c:213-238 | merging two ordered arrays gives an ordered array without duplicates whose masks are the unions |
| PollSets.PollData.MergeInto | racket/racket/src/rktio/rktio_poll_set.c:213-238 | the three loops compute that merge within the new array |
| PollSets.PollData.Merge | racket/racket/src/rktio/rktio_poll_set.c:189-249 | afterwards the set waits for the pointwise union, in order of descriptors unless the other set was empty; the other set keeps its masks |
| PollSets.PollData.SleepArgument | racket/racket/src/rktio/rktio_poll_set.c:1361-1380 | the signal pipe goes into the spare cell, in bounds, and the set is unchanged |
| NormalizePaths.NormalizePath | scribble/scribble-lib/scribble/scribble-common.js:103-108 | the loop terminates and computes the exhaustive application of the rules in order |
| NormalizePaths.SqueezeKeeps | scribble/scribble-lib/scribble/scribble-common.js:102 | the first rule leads to the same place and leaves no doubled slash |
| NormalizePaths.DotKeeps | scribble/scribble-lib/scribble/scribble-common.js:102 | the second rule leads to the same place and makes no doubled slash |
| NormalizePaths.PairKeeps | scribble/scribble-lib/scribble/scribble-common.js:102 | the third rule leads to the same place, ".." stopping at the root, and makes neither a doubled slash nor a dot segment |
| NormalizePaths.NormalizeCorrect | scribble/scribble-lib/scribble/scribble-common.js:103-108 | an absolute path is brought to normal form and still leads to the same place |
| NormalizePaths.NormalExactly | scribble/scribble-lib/scribble/scribble-common.js:103-108 | the normal paths are exactly the fixed points, and normalizing is idempotent |
| NormalizePaths.NormalSpells | scribble/scribble-lib/scribble/scribble-common.js:103-108 | unless it starts with "..", a normal path spells out its location |
| NormalizePaths.SameLocation | scribble/scribble-lib/scribble/scribble-common.js:103-108 | two paths that do not climb above the root lead to the same place if and only if their normal forms have the same segments |
| NormalizePaths.DirectoryStaysOne | scribble/scribble-lib/scribble/scribble-common.js:73-79 | a path that ends in a slash still does |

## Left out

- The `kqueue`, `select`, growable `fd_set` and Windows variants of poll sets and long-term poll sets,
  and the `check_child_done` variant of process handling without pthreads.
- System calls themselves (`epoll`, `waitpid`, `fork`, `dup2`, `inotify`, `poll`, pthreads, `CreateProcess`):
  they are steps or parameters. `dup2` is taken to succeed once retried, `malloc` never to fail, and
  `epoll_ctl` to succeed or to fail with `EPERM` when it adds or changes an interest.
- LtpsPollSets.Ltps.RemoveAll: does not tell the kernel, as the code does not, so agreement of table and kernel is claimed only up to that call or the close; what a poll does afterwards is in `LtpsPollLoop.dfy`, on values.
- Widths of `size_t`, `intptr_t` and `int` sums, so overflow of sizes and counts, except in the hash
  counters, where the width is the point.
- Hash values are taken to be non-NULL, as `rktio_hash.c` asks; `rktio_dll.c`, which stores NULL, is not part of this model, nor is `rktio_hash_string`.
- The big-endian `blk0`, and the context after `mbedtls_sha256_finish_ret`, which is not wiped.
- In `ChildStatus.dfy`, the field `unneeded`: it is set only if `keep_unused` is 0, and that is the constant 1. A
  number is taken not to be given out again while a client waits for its last holder. `setpgid`, and which
  children belong to the worker's own group, are left open: it may reap any child.
- CommandLines.SpawnCommandLine: does not model the exact command line given by the caller, which is passed on unchanged; the argument vector holds at least the program name, and `isspace` is that of the C locale.
- The descriptor that a pending open delivers: after `rktio_dup` both owners take the same one, so only the record's
  lifetime is proved. The array `rktio_pending_open_attach` replaces is never freed; memory is not modelled there.
- InotifyDelivery.EventsDelivered: takes the two events of a fired watch to be next to each other in the queue, as they are unless two
  threads of the kernel queue events at the same moment (`InotifyDelivery.ApartLosesEvent`), and a descriptor to be given out once; slots taken or left during the passes are not part of it.
- InotifySlots.InotifyState.Add: does not model reuse of watch descriptors by the kernel; a descriptor is fresh or that of a live slot.
- `revents`, `rktio_fdisset` and the Windows handles of poll sets; `qsort` is the insertion sort that its contract allows.
- Conditions of `poll` other than the signal pipe: it may return at any time for them.
- NormalizePaths.NormalizeCorrect: does not cover relative paths, which the page never passes; a leading `..` or `.` of one is not rewritten.
- `rktio_envvars.c`, `rktio_fd.c`, `rktio_network.c`, `rktio_fs.c`, `rktio_convert.c`, `rktio_time.c` and the rest
  of the repository: wrappers over system and library calls, or interpreters outside this layer.
