# FastKey in Dafny

FastKey is a Redis clone written in C. This project models the parts of it that carry state
or a protocol, and proves what they promise: the RESP codec and the client's receive buffer,
the command dispatcher with transactions, the chained hash table with expiry, streams, the
replication log and replica list, the RDB reader and the worker thread pool.

`dafny verify dfyconfig.toml` checks everything.

## How it is built

Each component has a layer of values (datatypes and functions) on which the laws are proved.
Where the C code updates things in place there is also a class whose methods are proved to
compute exactly that layer, so the laws carry over.

| File | What it holds |
|---|---|
| `CText.dfy`, `Numerals.dfy` | C strings, decimal printing, `strtoull`, `strtoll`, `atoi`: round trips, and what they make of any numeral |
| `Resp.dfy`, `RespBuffer.dfy`, `Messages.dfy` | RESP printers and the incremental parser; the growable buffer, the parser's loops, the drain loop; what a client may send |
| `Stream.dfy`, `StreamIDs.dfy`, `StreamList.dfy` | stream IDs, ordering, ranges, cursors; each way of writing an ID; the linked list |
| `Store.dfy`, `StoreRefinement.dfy`, `StoreLoad.dfy` | the hash table as a value, the map it refines, its load when streams are added |
| `StoreTable.dfy`, `RedisStore.dfy` | the heap: entries, chains, buckets, relinking |
| `Commands.dfy`, `CommandNames.dfy`, `CommandLaws.dfy` | the dispatcher and handlers; names and arities in a client's terms; what SET, INCR and XADD mean to GET and XRANGE |
| `XrangeReply.dfy`, `Answers.dfy` | replies read back by a client: what was asked for is what is answered |
| `Transactions.dfy`, `ExecReplies.dfy`, `ExecRuns.dfy` | MULTI, EXEC and DISCARD; the EXEC reply; transactions whose EXEC is undefined or crashes |
| `MapServer.dfy`, `OrderedStreams.dfy`, `KeptExpiry.dfy` | the server over a plain map and its simulation by the server over the hash table; stream order over every run; a run that shows the kept expiry |
| `Replicas.dfy`, `Replication.dfy`, `TimedReplay.dfy`, `LostNul.dfy` | the replica list, the bytes it is sent, the propagated log and its replay; a run that loses a NUL |
| `Session.dfy` | the client session, its queue and the connection's receive loop as classes |
| `ThreadPool.dfy` | the pool as a step system over all interleavings |
| `Rdb.dfy` | the RDB reader and a reference writer |
| `Options.dfy`, `Sequences.dfy` | shared definitions |

Memory is garbage-collected and the clock is an argument. A C `char` is a Dafny `char`, and
64-bit arithmetic, saturation and truncation are written out. Where the C code dereferences a
null or foreign pointer or overflows a signed integer (XADD with an ID that does not parse,
XADD on a string key, INCR of the largest 64-bit number, a command inside EXEC that answers
nothing) the model has an explicit crash outcome instead of a precondition; laws over runs say
when a run crashes. An EXEC that prints and frees a value it never initialised has the reply
`Undefined`; the state the model gives after it holds if the process goes on. Commands whose
handlers are not modelled answer `Open`: some text.

## Where the code falls short of what one would expect

Each is stated as an if-and-only-if, or with a concrete run.

- Overwriting a key keeps its old expiry, so a value just written is unreadable exactly when
  that expiry has passed (`StoreRefinement.ReadYourWriteIff`, `CommandLaws.SetThenGet`);
  `KeptExpiry.OverwriteKeepsExpiry` is a client's run from an empty store.
- A stream ID is printed into 32 bytes. It reads back exactly when its two decimal lengths
  total at most 30 (`Streams.IDRoundTrip`); longer ones break the order of a stream under the
  condition of `Streams.AddKeepsOrderIff`, and `Streams.TruncationBreaksOrder` gives two calls
  on a new stream that do.
- The array printer goes through `strlen`, so commands survive printing and parsing exactly
  when they are NUL-free (`Resp.ArrayRoundTrip`, `RespBuffers.PrintedDecodesIff`);
  `LostNul.NulDoesNotReachReplica` is a SET that the master stores and a replica is not sent.
- EXEC parses and reprints each reply. What it answers is undefined exactly when some reply
  does not parse; when all parse, they are handed on byte for byte exactly when no queued
  XRANGE finds entries and every answered value is NUL-free with an int-range length
  (`ExecReplies.ExecHandsOn`). A GET that misses is the first case in every state
  (`ExecRuns.MissedGetInTransaction`).
- A command that answers nothing, such as REPLCONF ACK, makes EXEC dereference a null pointer
  (`Transactions.TransactionIsDirectRun`, `ExecRuns.AckInTransaction`).
- XADD adds keys without resizing, so one doubling need not restore the load threshold
  (`StoreLoad.OneDoublingIsNotEnough`); `StoreLoad.LoadWithStreams` is the bound that holds.
- SET with PX stores a time read from the clock, and XADD with `*` an ID read from it. Each
  replays to the same store exactly when the clock reads the same, or, for XADD, when the
  stream accepts no ID at either reading (`Replication.SetClockIff`,
  `Replication.XaddClockIff`).
- A caller waiting in `threadPoolAdd` when the pool shuts down can return if and only if the
  task stack has room (`ThreadPool.BlockedAdderReturnsIff`); `ThreadPool.StrandingHappens` is
  a run after which one cannot.

## Model

| member | source | states |
|---|---|---|
| `CText.DecSignedRoundTrip` | app/command.c:320-337 | `strtoll` reads back every 64-bit number that `%lld` prints, and reads all of it |
| `CText.ScanDec` | app/stream.c:118-138 | scanning a printed number followed by a non-digit yields that number and stops right after it |
| `CText.DecPrefix` | app/stream.c:156-163 | cutting k characters off a printed number prints the number without its last k digits |
| `Numerals.ScanNumeral` | app/stream.c:126-136 | white space, a sign and digits are scanned to the last digit, with the digits' value; without a digit nothing is read |
| `Numerals.U64OfDec` | app/stream.c:126-136 | `strtoull` of a printed number is that number, saturated at UINT64_MAX |
| `Numerals.U64OfNegated` | app/stream.c:126-136 | with a minus sign it is negated modulo 2^64 |
| `Numerals.I64OfDec` | app/command.c:320-325 | `strtoll` of a printed number is that number, saturated at both ends |
| `Numerals.AtoiOfDec` | app/resp.c:287 | `atoi` of a printed number is in int range and differs from it by a multiple of 2^32 |
| `Numerals.ReadsAllIff` | app/command.c:320-325 | `strtoll` reads all of a text exactly when it is empty or white space, perhaps a sign, and digits |
| `Resp.FindCrlf` | app/resp.c:258-267 | the index found is a CRLF at or after the start, or the end |
| `Resp.FindCrlfIsFirst` | app/resp.c:258-267 | no CRLF starts before the one found |
| `Resp.ParseExtends` | app/resp.c:279-365 | OK and ERR verdicts do not change when more bytes arrive |
| `Resp.BulkRoundTrip` | app/resp.c:279-299 | a length-prefixed bulk string parses back whatever bytes it carries, and any suffix is left alone |
| `Resp.WireRoundTrip` | app/resp.c:301-339 | the protocol's encoding of an array of bulk strings, followed by any suffix, parses to that array and consumes exactly the encoding |
| `Resp.ArrayRoundTrip` | app/resp.c:104-140 | the printed array followed by any suffix parses back to the array and leaves exactly the suffix, if and only if all payloads are NUL-free with int-range lengths |
| `Resp.ArrayTextUncut` | app/resp.c:133-139 | the final `strndup` loses nothing, since each element was already cut at its first NUL |
| `Resp.CalculateCommandSize` | app/resp.c:469-484 | the loop's sum is the length of the encoding, of the printed text when NUL-free, and of the bytes the parser consumes |
| `Resp.ReplyRoundTrip` | app/resp.c:367-404 | parsing a NUL-free reply and printing it gives it back exactly for the texts of simple strings, errors, integers, bulk strings and flat arrays of bulk strings |
| `Resp.Clone` | app/resp.c:433-467 | the recursive deep copy equals its original |
| `RespBuffers.RespBuffer.Append` | app/resp.c:26-41 | the contents grow by exactly the data, whatever doubling was needed, and the allocation is kept when the data fits |
| `RespBuffers.RespBuffer.ParseNext` | app/resp.c:341-365 | answers what `Parse` says of the contents and removes exactly the consumed bytes on OK, nothing otherwise |
| `RespBuffers.RespBuffer.Shift` | app/resp.c:355-362 | the `memmove` leaves exactly the unconsumed suffix |
| `RespBuffers.ParseElementsLoop` | app/resp.c:321-338 | the moving-cursor loop computes the recursive element parser, errors included |
| `RespBuffers.ParseArrayLoop` | app/resp.c:301-339 | header and loop together compute `ParseArray` |
| `RespBuffers.PrintArray` | app/resp.c:104-140 | the appending loop prints the text of the array |
| `RespBuffers.PrintElement` | app/resp.c:111-133 | each kind of element prints as its text, nested arrays included |
| `RespBuffers.DrainExtends` | app/client_handler.c:98-105 | draining, appending and draining again equals appending first |
| `RespBuffers.FeedIsDrain` | app/client_handler.c:81-106 | feeding chunks to a drained buffer gives the values and leftover of one drain of everything |
| `RespBuffers.ChunkingDoesNotMatter` | app/client_handler.c:77-107 | two ways of splitting the same byte stream give the same values and the same leftover bytes |
| `RespBuffers.ErrorIsFinal` | app/client_handler.c:101-105 | after a RESP_ERR no later bytes produce a value and the buffer only grows |
| `RespBuffers.PrintedDecodesIff` | app/replicas.c:43-49 | the bytes printed for a list of commands, in any chunks, decode to exactly those commands if and only if each is NUL-free with int-range lengths |
| `Messages.BytesDrain` | app/client_handler.c:98-105 | the bytes of any messages a client may send drain to exactly those messages |
| `Messages.PrefixWaits` | app/resp.c:279-365 | no message is taken before its last byte has arrived |
| `Messages.NoMessage` | app/resp.c:341-356 | fewer than three bytes wait, and another first byte than `*` or `$` is an error |
| `Messages.NegativeHeader` | app/resp.c:287-314 | a negative length or count is an error |
| `Messages.EmptyHeader` | app/resp.c:301-315 | a count line without a number is an empty array |
| `Streams.RangeIsCompare` | app/stream.c:69-93 | `isIdInRange` agrees with `compareStreamIDs` on both bounds, and that is the lexicographic order |
| `Streams.ReparsedID` | app/stream.c:105-163 | printing and reparsing any 64-bit ID keeps its milliseconds and drops exactly the sequence digits that did not fit |
| `Streams.IDRoundTrip` | app/stream.c:105-163 | the round trip holds if and only if the decimal lengths total at most 30; otherwise the sequence read back is strictly smaller, a quotient by a power of ten |
| `Streams.Add` | app/stream.c:189-268 | the old entries are a prefix of the new ones, at most one is added, and none unless the ID was accepted |
| `Streams.AddKeepsOrderIff` | app/stream.c:189-268 | after an accepted add the tail's ID is what the print buffer kept, and the stream stays ordered exactly when that is above the old tail |
| `Streams.AddKeepsOrder` | app/stream.c:165-187 | an add whose ID fits the buffer keeps the IDs strictly increasing and above 0-0 |
| `Streams.RunKeepsOrder` | app/stream.c:189-268 | the same over every sequence of adds, and earlier entries stay |
| `Streams.AutoSequenceIsLeast` | app/stream.c:141-154 | an automatic sequence number is the least valid one for its millisecond; past UINT64_MAX it wraps and is rejected |
| `Streams.TruncationBreaksOrder` | app/stream.c:156-163 | two calls on a new stream, both accepted, after which two entries hold the same ID |
| `Streams.StarClockIff` | app/stream.c:189-268 | adding with `*` at two clock readings gives the same stream if and only if the readings agree or the stream has room for a new ID at neither |
| `StreamIDs.AddAuto` | app/stream.c:120-124 | `ms-*` is accepted exactly when the stream has room in that millisecond, and then adds the least free sequence number, as far as the print buffer keeps it |
| `StreamIDs.AddStar` | app/stream.c:110-114 | `*` does the same in the millisecond of the clock |
| `StreamIDs.AddExplicit` | app/stream.c:126-138 | a written-out ID is accepted exactly when it is above 0-0 and above the tail; 0-0 has its own error |
| `StreamIDs.AddUnparseable` | app/stream.c:116-119 | a text without a dash, or with one in front, is no ID unless it is `*` |
| `StreamIDs.RangeBetween` | app/stream.c:290-305 | a range between written-out or open bounds is exactly the entries between them |
| `Streams.RangeIsSlice` | app/stream.c:284-335 | a range over an ordered stream is the contiguous slice between its bounds |
| `Streams.ReadIsSuffix` | app/stream.c:337-376 | reading after an ID returns exactly the suffix of entries above it |
| `Streams.SplitLaw` | app/stream.c:284-376 | the range up to any accepted ID followed by the read after it is the whole stream |
| `Streams.ExactlyOnce` | app/stream.c:337-376 | a consumer that reads from its last ID, interleaved with any adds, has received a prefix of the entries above its start, and one more read completes it |
| `Streams.DollarSeesNewEntries` | app/command.c:222-229 | a consumer that starts from `$` receives exactly the entries added since |
| `StreamLists.Stream.Append` | app/stream.c:189-268 | the linked list's entries become `Add` of the old ones, and the result is `AddOutcome` |
| `StreamLists.Stream.NextSequence` | app/stream.c:141-154 | computes the next sequence number from the tail |
| `StreamLists.Stream.ValidNextID` | app/stream.c:165-187 | decides validity against the tail |
| `StreamLists.Stream.CopyRange` | app/stream.c:284-335 | the walk copies exactly the range, and `count` is its length |
| `StreamLists.Stream.CopyAfter` | app/stream.c:337-376 | the walk copies exactly the entries above the ID, and `count` is their number |
| `StreamLists.Stream.TailID` | app/command.c:222-229 | what `$` stands for: the tail's ID, or 0-0 |
| `Store.LookupFinds` | app/redis_store.c:141-163 | walking one chain finds an item exactly when the whole table holds it |
| `Store.AbsOfBag` | app/redis_store.c:48-66 | the map depends only on which items the table holds, not on where they sit |
| `Store.UsedIsMapSize` | app/redis_store.c:127 | `used` is the number of keys |
| `Store.HashIs` | app/redis_store.c:9-16 | the hash is the polynomial in 33 over signed chars that starts from 5381, modulo 2^64 |
| `StoreRefinement.ResizeRefines` | app/redis_store.c:48-66 | rehashing doubles the size, keeps every item and leaves the map unchanged |
| `StoreRefinement.SetRefines` | app/redis_store.c:68-131 | `storeSet` is a map update that keeps the expiry of an overwritten key and gives a new key none |
| `StoreRefinement.SetExpiryRefines` | app/redis_store.c:185-197 | `setExpiry` changes the expiry of that key if it is there and nothing else |
| `StoreRefinement.StreamAddRefines` | app/redis_store.c:216-239 | `storeStreamAdd` adds to the key's stream, or to a new empty one, even when the add is rejected |
| `StoreRefinement.ReadsRefine` | app/redis_store.c:133-183 | every read sees exactly the map |
| `StoreRefinement.SweepRefines` | app/redis_store.c:199-214 | `clearExpired` removes exactly the keys with a nonzero expiry below now, keeps the rest of every bucket in order, and lowers `used` by the number removed |
| `StoreRefinement.SweepInvisible` | app/redis_store.c:199-214 | no read at a clock not below the sweep's changes its result |
| `StoreRefinement.ReadYourWriteIff` | app/redis_store.c:82-98 | a written value reads back if and only if the key held no expiry that has passed; after a sweep it always does |
| `StoreRefinement.SetWithExpiry` | app/redis_store.c:185-197 | two expiries leave the same store only when they are equal |
| `StoreRefinement.SetGrowsIff` | app/redis_store.c:75-77 | with `used` below 2^24, `storeSet` doubles the table exactly when more than three quarters are used |
| `StoreRefinement.RunRefines` | app/redis_store.c:68-256 | every state reachable from a fresh store is well-formed and stands for the map the same operations build, which answers every read |
| `StoreRefinement.LoadBound` | app/redis_store.c:75-79 | in runs of `storeSet`, `setExpiry` and `clearExpired` with `used` below 2^24, without `storeStreamAdd`, size stays 16 times a power of two and 4 used <= 3 size + 4 |
| `StoreLoad.LoadWithStreams` | app/redis_store.c:75-239 | in every run with `used` below 2^24, `storeStreamAdd` included, the bound grows by 4 for each stream key still owed: a new one owes one, a `storeSet` pays eleven |
| `StoreLoad.OneDoublingIsNotEnough` | app/redis_store.c:216-239 | after XADD on more than 24 distinct keys of a new store the bound without streams fails, and after one SET the threshold is still exceeded |
| `StoreTables.BucketTable.PushFront` | app/redis_store.c:124-127 | linking an entry prepends it to its bucket and changes no other |
| `StoreTables.BucketTable.Find` | app/redis_store.c:81-101 | the pointer walk returns the key's entry, or null exactly when there is none |
| `StoreTables.BucketTable.Overwrite` | app/redis_store.c:84-97 | overwriting in place replaces that one item |
| `StoreTables.BucketTable.Unlink` | app/redis_store.c:205-207 | unlinking removes that entry and keeps the order of the rest |
| `StoreTables.BucketTable.SweepBucket` | app/redis_store.c:202-212 | the pointer-to-pointer loop leaves exactly the unexpired entries of the bucket in order and counts the removed ones |
| `RedisStores.RedisStore.ResizeTable` | app/redis_store.c:48-66 | relinking every entry in place computes `Resize` |
| `RedisStores.RedisStore.StoreSet` | app/redis_store.c:68-131 | computes `Set` on the table's value |
| `RedisStores.RedisStore.StoreGet` | app/redis_store.c:133-167 | returns the live string under the key |
| `RedisStores.RedisStore.GetValueType` | app/redis_store.c:169-183 | returns the type of the live entry |
| `RedisStores.RedisStore.StoreExpiry` | app/redis_store.c:185-197 | computes `SetExpiry` and answers whether the key was there |
| `RedisStores.RedisStore.StoreGetStream` | app/redis_store.c:241-256 | returns the stream under the key |
| `RedisStores.RedisStore.StoreStreamAdd` | app/redis_store.c:216-239 | computes `StreamAdd` and returns the result of the add |
| `RedisStores.RedisStore.ClearExpired` | app/redis_store.c:199-214 | computes `Sweep` |
| `Commands.Classify` | app/command.c:683-707 | an accepted command has all the arguments its handler reads |
| `CommandNames.ClassifyIs` | app/command.c:651-707 | which names, in any mixture of cases, and which argument counts each command accepts, and the two errors otherwise |
| `Commands.ExecLoop` | app/command.c:371-381 | the loop changes only store and log, never the queue or the transaction flag, and yields one reply per queued command; the mutual recursion terminates |
| `Commands.RunKeepsBetween` | app/command.c:680-735 | between commands of every run: no transaction implies an empty queue, and the queue holds only accepted commands other than MULTI, EXEC and DISCARD |
| `CommandLaws.SetStoreMap` | app/command.c:19-46 | SET is a map update, with PX the expiry too |
| `CommandLaws.SetThenGet` | app/command.c:19-79 | GET after SET gives the value exactly while it is readable, and no other key is affected |
| `CommandLaws.IncrStep` | app/command.c:306-345 | INCR answers and stores the next number |
| `CommandLaws.IncrCounts` | app/command.c:306-345 | any number of INCRs in a row adds that number, up to the top of the 64-bit range, and touches no other key |
| `CommandLaws.FullRange` | app/stream.c:284-335 | XRANGE from - to + is the whole ordered stream |
| `CommandLaws.XaddThenXrange` | app/command.c:108-166 | after XADD the range over everything is the old entries and, if accepted, the new one last, with the ID in the reply |
| `XrangeReply.EntryReads` | app/resp.c:156-174 | a printed entry reads back as its ID, its fields and its values, and leaves exactly what follows it |
| `XrangeReply.ReplyReads` | app/resp.c:142-178 | the XRANGE reply reads back as the entries, in order |
| `Answers.BulkReads` | app/resp.c:68-83 | a bulk reply reads back as its argument |
| `Answers.GetAnswers` | app/command.c:48-79 | GET answers the value itself, or a null bulk string |
| `Answers.EchoAnswers` | app/command.c:97-101 | ECHO answers its argument |
| `Answers.PxMeans` | app/command.c:29-40 | SET expires after what follows `px`, in any case, if that is positive, saturated at 64 bits |
| `Answers.SetThenGetAnswers` | app/command.c:19-79 | SET answers OK, and GET then answers the value while it is readable |
| `Answers.IncrRefusesIff` | app/command.c:320-330 | INCR refuses exactly the live values that are neither empty nor numerals, and then changes nothing |
| `Answers.XaddArguments` | app/command.c:113-120 | the arguments after the ID are fields and values in turn; one left over is dropped |
| `Answers.XaddStep` | app/command.c:108-138 | XADD runs `streamAdd` with what it was given, answers its result, and is propagated even when rejected |
| `Answers.XaddAnswers` | app/command.c:128-137 | the reply reads back as the stored ID or as the error |
| `Answers.XrangeAnswers` | app/command.c:140-166 | the reply reads back as exactly the entries between the two bounds |
| `Answers.XrangeOfNothing` | app/command.c:146-149 | a key without a stream answers an empty array |
| `Answers.XaddThenXrangeAnswers` | app/command.c:108-166 | after an accepted XADD the whole range reads back as the old entries and then the new one, under the ID that XADD answered |
| `Answers.ReplconfAnswers` | app/command.c:485-538 | REPLCONF answers ACK with nothing, and anything but ACK and GETACK with OK |
| `Answers.PropagatesIff` | app/command.c:722-731 | an accepted command is propagated if and only if it is named INCR or XADD, or SET on a master |
| `Transactions.QueueingFillsQueue` | app/command.c:710-714 | inside a transaction a list of commands only fills the queue |
| `Transactions.TransactionIsDirectRun` | app/command.c:347-399 | MULTI, any list of other commands, EXEC ends in the same store, log and client state as sending the list directly with the same clock readings, and answers from the direct replies; it crashes exactly when the direct run does or some queued command answers nothing |
| `Transactions.DiscardUndoes` | app/command.c:401-412 | with DISCARD instead nothing has changed |
| `Transactions.ExecReplyIsConcatenation` | app/command.c:365-385 | when every reply survives, the EXEC reply is the array header and the replies byte for byte |
| `Transactions.TransactionReply` | app/command.c:353-399 | the same for a whole transaction, against the replies of the direct run |
| `ExecReplies.BulkSurvivesIff` | app/resp.c:367-404 | a bulk reply survives exactly when it is NUL-free with an int-range length |
| `ExecReplies.NullDoesNotSurvive` | app/resp.c:367-404 | a null bulk reply does not parse |
| `ExecReplies.XrangeSurvivesIff` | app/resp.c:142-178 | an XRANGE reply survives exactly when it is empty |
| `ExecReplies.ReplySurvivesIff` | app/command.c:371-381 | the reply of each modelled handler parses and prints back if and only if a condition on the command and the store holds |
| `ExecReplies.ExecReplyTells` | app/command.c:365-385 | when every reply parses and each survives or is visibly changed, the EXEC reply is the header and the replies byte for byte if and only if all survive |
| `ExecReplies.ExecHandsOn` | app/command.c:365-385 | for modelled commands: a transaction crashes exactly when the direct run does or a command answers nothing; its EXEC reply is undefined exactly when some direct reply does not parse; when all parse, it is the header and the direct replies byte for byte if and only if no queued XRANGE finds entries and every answered value is NUL-free with an int-range length |
| `ExecRuns.MissedGetInTransaction` | app/resp.c:367-404 | in every state, MULTI, a GET that finds nothing, EXEC: the direct answer is a null bulk string, the EXEC reply is undefined |
| `ExecRuns.MissedGetFromStart` | app/resp.c:367-404 | the same for any key on a new server |
| `ExecRuns.AckInTransaction` | app/command.c:513-533 | in every state, MULTI, REPLCONF ACK, EXEC crashes, where the direct command answers nothing |
| `Replication.LogReplay` | app/command.c:722-734 | for every run on a master without PX and `*` IDs, replaying the propagated commands on an empty store rebuilds the store, at any clock |
| `Replication.RunLogs` | app/command.c:722-734 | only commands that were received are propagated |
| `Replication.RunLogsWrites` | app/command.c:722-731 | over every run nothing but SET, INCR and XADD is propagated |
| `Replication.ReplicaRebuildsStore` | app/replicas.c:43-61 | for a replica listed at the start whose writes succeed, while others join, fail and are dropped, the bytes it is sent decode in any chunks to exactly the log, and replaying it rebuilds the master's store |
| `Replication.SetClockIff` | app/command.c:26-45 | SET at two clock readings leaves the same store if and only if it has no effective PX or the readings agree |
| `Replication.XaddClockIff` | app/command.c:108-138 | XADD with `*` at two clock readings leaves the same store if and only if the readings agree or the stream, ordered, has room at neither |
| `LostNul.NulDoesNotReachReplica` | app/replicas.c:43-49 | SET of a value with a NUL is received in any chunks, stored whole and logged, but the bytes a listed replica is sent do not decode to it |
| `TimedReplay.LogReplaysAtItsTimes` | app/command.c:722-734 | for every run on a master, PX, `*` and transactions included, replaying each propagated command at the clock reading it first ran at rebuilds the store |
| `Replicas.ReplicaList.Add` | app/replicas.c:15-28 | appends the descriptor with offset 0, growing when full |
| `Replicas.ReplicaList.Remove` | app/replicas.c:30-41 | removes the first entry with the descriptor and keeps the order |
| `Replicas.ReplicaList.Propagate` | app/replicas.c:43-61 | prints the command, attempts each replica exactly once in order, terminates despite stepping the index back, and leaves exactly the successful ones in order when descriptors are distinct |
| `Replicas.SurvivorsKeep` | app/replicas.c:47-55 | an entry whose write succeeded stays listed, and descriptors stay distinct |
| `Replicas.PresentIsSentEverything` | app/replicas.c:43-61 | a replica listed at the start whose writes succeed is sent exactly the printed log, each command once, whatever happens to the others |
| `MapServer.RunHandlerAgrees` | app/command.c:19-345 | each handler on the hash table crashes, answers and changes the store as its counterpart on a map does |
| `MapServer.ExecuteAgrees` | app/command.c:680-735 | one command, EXEC included, does on the hash table what the dispatcher over a map does |
| `MapServer.ReachableStoreIsMap` | app/command.c:680-735 | for every list of inputs the server on the hash table and the one on a map crash together, give the same replies and log, and end with a table that stands for the map; GET, TYPE and stream reads are answered from it |
| `OrderedStreams.ReachableStreamsOrdered` | app/command.c:108-138 | after every run of commands whose accepted XADD IDs fit the print buffer, each stream in the store is ordered |
| `OrderedStreams.ReachableXaddThenXrange` | app/command.c:108-166 | after such a run, XADD and then XRANGE over everything give the old entries and, if accepted, the new one last |
| `OrderedStreams.ReachableXaddClockIff` | app/command.c:108-138 | after such a run, XADD with `*` at two clock readings leaves the same store if and only if the readings agree or there is room at neither |
| `KeptExpiry.OverwriteKeepsExpiry` | app/redis_store.c:82-98 | from an empty store, SET with PX, a plain SET of the key, then GET: the GET answers a null bulk string if and only if the first expiry has passed |
| `Sessions.CommandQueue.Enqueue` | app/command_queue.c:12-20 | appends the command, whatever growth was needed |
| `Sessions.CommandQueue.Clear` | app/command_queue.c:22-30 | leaves an empty queue |
| `Sessions.HandleSet` | app/command.c:19-46 | the handler on the heap store computes `SetStore` |
| `Sessions.HandleXadd` | app/command.c:108-138 | the handler on the heap store computes the modelled outcome, crash included |
| `Sessions.HandleIncr` | app/command.c:306-345 | the handler on the heap store computes the modelled outcome, crash included |
| `Sessions.Session.ExecuteCommand` | app/command.c:680-735 | the mutually recursive dispatcher on the heap computes `Execute` |
| `Sessions.Session.HandleExec` | app/command.c:353-399 | EXEC runs the queue through the dispatcher, prints the parsed replies and resets the client |
| `Sessions.Session.RunQueue` | app/command.c:371-381 | the loop over the queue computes `ExecLoop` |
| `Sessions.PrintReplies` | app/command.c:379-385 | parsing each reply and printing the array computes `ExecReply` |
| `Sessions.Connection.DrainBuffer` | app/client_handler.c:100-105 | the drain loop executes exactly the commands of the buffered bytes and stops where the parser is not OK |
| `Sessions.Connection.HandleClientData` | app/client_handler.c:77-107 | however the bytes are split, the session ends in the state, and sends the replies, of running the commands of the whole byte stream; for the bytes of any messages these are exactly the nonempty arrays, with all their arguments |
| `Sessions.WholeOfMessages` | app/client_handler.c:53-66 | the bytes of any messages come to running exactly their nonempty arrays, in order |
| `ThreadPool.NextInv` | app/thread_pool.c:5-79 | every step keeps the pool's invariant |
| `ThreadPool.ReachableInv` | app/thread_pool.c:5-79 | the invariant holds in every state of every interleaving |
| `ThreadPool.PoolSafety` | app/thread_pool.c:5-79 | accepted = run + running + pending as multisets, the stack stays within capacity, before shutdown a sleeping worker means at most as many tasks as woken workers, after it nobody sleeps |
| `ThreadPool.PopIsLast` | app/thread_pool.c:20-24 | a worker runs the last task on the stack, which leaves the stack |
| `ThreadPool.PushThenPop` | app/thread_pool.c:20-68 | a task just accepted is what the next pop runs, and the stack is back as it was |
| `ThreadPool.LateCallIsRefused` | app/thread_pool.c:58-61 | a call that reaches the lock after shutdown is never accepted and leaves the stack alone |
| `ThreadPool.ShutdownDrains` | app/thread_pool.c:75-83 | after shutdown every worker step lowers a rank that is 0 exactly when all workers have exited, and no other step raises it |
| `ThreadPool.SomeWorkerMoves` | app/thread_pool.c:75-83 | while that rank is positive some worker step is enabled |
| `ThreadPool.StuckForEver` | app/thread_pool.c:63-65 | a call waiting at shutdown with a full stack is still waiting in every later state, spurious wakeups included |
| `ThreadPool.BlockedAdderReturnsIff` | app/thread_pool.c:63-79 | a call waiting at shutdown can return in some continuation if and only if the stack has room |
| `ThreadPool.StrandingHappens` | app/thread_pool.c:63-79 | a run of one worker and three calls after which the third cannot return |
| `ThreadPool.BlockedAdderIsStranded` | app/thread_pool.c:63-79 | even with room, only a spurious wakeup releases a call that sleeps at shutdown |
| `Rdb.RdbReader.NextLength` | app/rdb.c:58-72 | decodes 6, 14 and 32-bit lengths from the cursor |
| `Rdb.RdbReader.NextString` | app/rdb.c:74-87 | reads a length-prefixed string, or none for length 0 or a short file |
| `Rdb.RdbReader.ValidateHeader` | app/rdb.c:127-144 | accepts exactly the images with magic and version, and stands after them |
| `Rdb.RdbReader.FindDatabaseSection` | app/rdb.c:146-159 | finds the first entry of the first section whenever the scan stops |
| `Rdb.RdbReader.GetRdbKeys` | app/rdb.c:226-272 | lists the keys of all entries in order |
| `Rdb.RdbReader.GetRdbValue` | app/rdb.c:166-224 | returns the live value of the first matching string entry |
| `Rdb.ValueImpliesListed` | app/rdb.c:166-272 | on every image whose scan stops, a key with a value is among the listed keys |
| `Rdb.WrittenSection` | app/rdb.c:146-159 | on every image of the reference writer the section holds exactly the records written |
| `Rdb.WrittenReadsBack` | app/rdb.c:166-272 | on images spelled out in the format's bytes all keys come back in order and a lookup gives the first match's unexpired value, seconds taken as the code takes them |

## Left out

- Sockets, the handshake, the accept loop, configuration, logging, `main` and signals: I/O plumbing.
- XREAD, CONFIG, KEYS, INFO, REPLCONF GETACK, PSYNC and WAIT: modelled only as handlers that do not touch the store, with open replies (none for PSYNC on a replica); WAIT counting and blocking XREAD depend on real time.
- GET's fallback to the RDB file: the reader is modelled on its own; the GET handler is its memory part.
- The replica's command loop (app/server.c:53-106): it accepts only values of type RespTypeString as command names, which the parser never builds; replay is stated over `executeCommand`.
- `repl_offset`: it adds the result of every write, -1 included, and has no stream-offset meaning.
- Locks and interleaving of clients on the store: the store is sequential; EXEC holds no lock across its loop, so its laws are for one client at a time.
- Arrays cut off in the middle: `parseArray` then calls `freeRespValue` on element pointers it never initialised (app/resp.c:327-334). The chunking laws pass through that path whenever a chunk ends inside an array, so they hold for the garbage-collected reading.
- Partial writes to a replica: a write succeeds completely or fails.
- Allocation failure, `size_t` overflow, `free` functions: memory is garbage-collected; `malloc(0)` counts as a success. `Replicas.ReplicaList.Add` and the thread pool's step system likewise have no failing allocation or null task.
- Signed overflow of the clock plus PX, and of a header number outside int range: `atoi` wraps as in glibc. A header line of length 0 reads as 0, where C reads past a one-byte allocation.
- What EXEC prints when a reply does not parse: C reads and frees uninitialised memory, which may even print the reply's own bytes; the model says only that the result is undefined. With a command whose handler is not modelled in the queue, the EXEC reply is open.
- `count` after a range bound that does not parse is uninitialised in C and the model gives 0; the XRANGE reply does not depend on it.
- A new stream entry's expiry is uninitialised in C; the model gives 0, as `storeSet` does.
- Stream values inside the hash table's entries: held as sequences, not as `StreamLists.Stream` objects; aliasing between the table and a stream's nodes is not modelled.
- RDB second-resolution expiry is modelled as the code reads it (big-endian, multiplied in 32 bits), which is not the format's; `readEncodedString`, value types other than strings and the reader's `pos` field are not modelled further: the reader does not decode these consistently.
- An RDB scan that never stops: `findDatabaseSection` loops for ever at the end of a file without a marker; the RDB members require that it stops.
- TYPE and `clearExpired` compare millisecond expiries with a clock in seconds; the model passes each its own clock reading and draws no conclusion from the units.
- The end of `threadPoolDestroy`: after the joins it destroys the condition variables and frees the pool while a stranded caller may still hold them (app/thread_pool.c:85-91). The steps end before that, so "every later state" means up to that point.
- The thread pool as a class: it is a step system, since what matters is the interleaving.
