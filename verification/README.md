# metor-db data path: a Dafny model

metor-db takes in table packets, spreads their fields over components, buffers each component's
samples in a broadcast ring, persists them in chunked append-only logs, and sends them out again as
framed packets whose layout is described by small compiled programs called vtables. This project
models that path and proves what its parts promise each other. `dafny verify dfyconfig.toml` checks
all of it.

| part | modules |
|---|---|
| broadcast ring | `Disruptor` (one step at a time), `Broadcast` (whole runs), `RecordRing` (fixed-size records), `DisruptorCore` (the object), `Wal` (the ring with its pushing and persisting tasks) |
| vtables | `VTables` (interpreter), `VTableBuilder` (compiler and its correctness), `VTableMeaning` (what builders mean, without the interpreter), `VTableBuilderObject` (the builder object), `VTableMessage`, `VTableDecoding` and `Postcard` (the message), `VTableWire` (builder to wire to fields) |
| persistence | `TimeSeries`, `Persist`, `Component` (end to end), `MsgLog`, `MsgPersist`, `MsgSystem` (end to end for messages), `AtomicStack` |
| queries | `Search`, `ReplySlices`, `ReplyContents` (what a reply holds), `RangeReply` |
| streams | `BitVec`, `FieldTable`, `TableLayout` |
| framing | `Framing`, `Packets` |
| shared | `Bytes`, `Arithmetic` |

Concurrency is modelled as state machines whose steps are single accesses to shared memory, over
every interleaving. Code that works by updating an object is a class, and each method is proved equal
to a function on the object's abstract value, about which the lemmas speak.

## Where the code and its promises differ

Each of these has a member that exhibits the failure and one that says for which inputs the code is
right; both are named.

- **A ring filled exactly to capacity.** Cursors are taken modulo the capacity, so a full ring looks
  empty: a write is admitted over unread bytes. `PushReachesAllIffSafe` gives the exact condition of one
  push, `OverwriteAtCapacity` the loss, `ComponentBroadcast` and `Component.EndToEnd` the record sizes for
  which it cannot happen. The ring of a newly created component of one `f64` is one of those for which it
  can (`EightByteComponentOverwrites`); for such rings `Component.EndToEndIfHarmless` covers the runs in
  which it did not.
- **A reader that joins while a write is outstanding** misses it if the write wrapped and ends at or past
  the committed position (`RegisterDuringWriteIffSafe`), as it can when nobody else reads
  (`LateJoinerMissesWrite`). With any reader present it cannot (`AnyReaderMakesJoiningSafe`).
- **Two nodes for one timestamp.** A node's directory is named after its first timestamp and can be
  created once, so a roll-over to a name already used fails and the sample or message is dropped
  (`Persist.BurstIsNotStored`, `MsgPersist.BurstIsNotStored`). Which sequences are stored in full is
  `Persist.StoreAllExact` and `MsgPersist.StoreAllExact`.
- **Rows narrower than a timestamp** fill the index before the data (`NarrowRowsOverflow`,
  `NarrowRowsAreNotStored`); `Persist.StoreAllExact` covers all widths.
- **`TimestampRef.timestamp`** is the sample's own time exactly when the time searched for falls inside
  the node, or all samples of the node have one time (`ReportsOwnTime`); `ReportsOtherTime` is a search
  that reports another.
- **The nearest sample** is looked for by comparing the far ends of the two nodes around a gap, so the one
  found need not be the nearest (`NotTheNearest`); it is exactly under the condition of `ClosestInGapIff`.
- **Range queries** walk from the node of the start towards older nodes, so that a range over two nodes
  lacks the newer samples (`TwoNodeQuery`). `ReplyIsAnswer` says what is returned instead, and `AnyNodesReply` which queries are
  answered in full.
- **A component without a sample to be found**, because its newest node is still empty, has a field in
  the vtable and no bytes in the table; the next component's sample is read in its place
  (`EmptyNodeMisreads`, `TableArrivesIffVisitsAgree`). Older nodes that do hold samples do not help: the
  search gives up at an empty node (`Search.Nearest`).
- **A stage that fails** ends its plan and so its flag stays down: the stream stays open and sends nothing
  more (`AbortEndsStream`).
- **A receive buffer smaller than the leftovers** returns the first frame and leaves the rest rotated
  (`SmallerBufferReorders`), unless that frame fills the buffer (`LeftoversInOrderIff`).
- **Message offsets are 32 bits** while a data log may hold 8 GiB (`OffsetWrapLosesMessage`); a long
  message reads back exactly as `OffsetWraps` says.
- **A varint of more than 64 bits** is not refused when it has ten bytes: the tenth counts for its lowest
  bit alone (`TenthByteIsCut`). `DecodeUnsignedExact` says which bytes decode, and to what.
- **An empty byte array** can be encoded and not decoded (`Postcard.ByteArrayRoundTrip`, which is an
  equivalence).
- **Decoding a vtable** looks only at the result of the last element of each sequence (`LastDecides`,
  `UnknownTagAccepted`). Encoding overwrites results as well, but there every error still surfaces
  (`VTableMessage.EncodeMessage`).

Packets with an empty body do parse, so the results on packets exclude none.

## Model

| member | source | states |
|---|---|---|
| `Disruptor.InitInv` | libs/db/src/disruptor.rs:17-29 | a new ring is all free, nobody reads it, and it satisfies the invariant |
| `Disruptor.TryGrantInv` | libs/db/src/disruptor.rs:64-93 | a grant outside the unsafe family keeps the invariant |
| `Disruptor.FillInv` | libs/db/src/disruptor.rs:166-173 | writing through a grant keeps the invariant |
| `Disruptor.StoreMarkInv` | libs/db/src/disruptor.rs:175-188 | dropping a grant moves the high-water mark only when the write wrapped, and keeps the invariant |
| `Disruptor.PublishInv` | libs/db/src/disruptor.rs:190-192 | publishing keeps the invariant |
| `Disruptor.RegisterInv` | libs/db/src/disruptor.rs:95-102 | joining keeps the invariant unless a wrapping write is outstanding |
| `Disruptor.LoadWriteInv` | libs/db/src/disruptor.rs:232-233 | the first half of a read, on its own, keeps the invariant |
| `Disruptor.ReadRangeInBounds` | libs/db/src/disruptor.rs:234-242 | the subtractions of the read path never underflow and the range lies in the buffer, whatever happened between the two loads |
| `Disruptor.LoadMarkInv` | libs/db/src/disruptor.rs:234-246 | the second half of a read keeps the invariant |
| `Disruptor.ReleaseInv` | libs/db/src/disruptor.rs:314-321 | dropping a read grant keeps the invariant |
| `Disruptor.UnregisterInv` | libs/db/src/disruptor.rs:250-299 | leaving removes that reader alone and keeps the invariant |
| `Disruptor.GrantAvoidsReaders` | libs/db/src/disruptor.rs:122-144 | no byte is at once granted for writing and unread, or under a read grant, by any reader |
| `Disruptor.MarkFrozenWhileInverted` | libs/db/src/disruptor.rs:77-86 | while any reader is inverted neither a grant nor its drop moves the high-water mark |
| `Disruptor.PublishAppends` | libs/db/src/disruptor.rs:175-195 | publishing appends exactly the granted bytes to every reader's unread bytes |
| `Disruptor.PushInv` | libs/db/src/disruptor.rs:64-195 | grant, fill and drop together append the data to what each reader has yet to read |
| `Disruptor.PushReachesAllIffSafe` | libs/db/src/disruptor.rs:66-86 | an admitted write reaches every reader if and only if no reader sits at zero under a ring full to capacity, or at capacity when the grant ends there |
| `Disruptor.RegisterDuringWriteIffSafe` | libs/db/src/disruptor.rs:95-102 | a reader that joins at any point of an outstanding write sees exactly that write, once dropped, if and only if it did not wrap to at or past the committed position |
| `Disruptor.DropAppends` | libs/db/src/disruptor.rs:175-195 | dropping a grant, whichever half is left to do, appends exactly the granted bytes to every reader's unread bytes |
| `Disruptor.AnyReaderMakesJoiningSafe` | libs/db/src/disruptor.rs:95-102 | with a reader present joining is always safe |
| `Disruptor.LateJoinerMissesWrite` | libs/db/src/disruptor.rs:77-102 | with none, the second of two writes of more than half the ring wraps, and a reader that joins during it finds nothing of it |
| `Disruptor.AdmittedIff` | libs/db/src/disruptor.rs:64-144 | a write is admitted if and only if it is no longer than the ring and leaves room to every reader, by positions: its end stays strictly below the cursor of a reader ahead of it, and for one not ahead it ends by capacity or is shorter than that cursor; where it is granted, what mark it leaves, and which error it gives otherwise |
| `Disruptor.RoomInUnreadBytes` | libs/db/src/disruptor.rs:122-144 | the same test in bytes that a reader has not read, away from capacity |
| `Disruptor.DrainedRingAdmits` | libs/db/src/disruptor.rs:122-144 | with everything read, exactly the writes that end by capacity, or are shorter than the committed position, are admitted |
| `Disruptor.UnreadRingAdmits` | libs/db/src/disruptor.rs:122-144 | with nobody reading, exactly the writes no longer than the ring |
| `Disruptor.NextDelivers` | libs/db/src/disruptor.rs:229-247 | an undisturbed read delivers everything unread, up to the mark if the writer has started over, and dropping its grant leaves exactly what lies at the front |
| `Broadcast.StepWorldInv` | libs/db/src/disruptor.rs:64-247 | every step of writer or reader keeps the link between ring, cursors and the byte streams sent and received |
| `Broadcast.RunInv` | libs/db/src/disruptor.rs:64-321 | the invariant holds at every point of every run |
| `Broadcast.BroadcastTheorem` | libs/db/src/disruptor.rs:64-321 | at every point of every run, what a reader received followed by what is unread is exactly what was committed since it joined, and each chunk is a whole number of commits |
| `Broadcast.NothingToReadMeansDrained` | libs/db/src/disruptor.rs:229-247 | a read that finds nothing means that everything committed was received |
| `Broadcast.DrainedTookAll` | libs/db/src/disruptor.rs:229-247 | and, no commit being empty, that every commit was taken |
| `Broadcast.ChunkStable` | libs/db/src/disruptor.rs:306-312 | no step of anyone else changes the bytes under a read grant |
| `RecordRing.RecordDividesRing` | libs/db/src/lib.rs:545-580 | a record of s+8 bytes divides a ring of n*s bytes iff it divides 8n |
| `RecordRing.CreatedAndReopenedRings` | libs/db/src/lib.rs:545-567 | so capacity can be hit exactly only if s+8 divides 8192 (created) or 2048 (reopened) |
| `RecordRing.ComponentRunPrefix` | libs/db/src/lib.rs:577-628 | with other sizes every commit position is a multiple of the record and every grant is safe |
| `RecordRing.ComponentBroadcast` | libs/db/src/lib.rs:577-628 | so the broadcast theorem holds for every run without a side condition |
| `RecordRing.OverwriteAtCapacity` | libs/db/src/disruptor.rs:66-86 | if n records fill the ring and nothing is read, record n+1 is admitted and is all the reader has left |
| `RecordRing.EightByteComponentOverwrites` | libs/db/src/lib.rs:545-545 | a created component of eight bytes has such a ring |
| `DisruptorCore.Core.constructor` | libs/db/src/disruptor.rs:17-29 | the object starts as the initial state |
| `DisruptorCore.Core.CanWrite` | libs/db/src/disruptor.rs:122-144 | the scan over the readers decides exactly whether every reader leaves room |
| `DisruptorCore.Core.TryGrant` | libs/db/src/disruptor.rs:64-93 | the object's grant is that of the state machine, errors included |
| `DisruptorCore.Core.CopyIntoGrant` | libs/db/src/disruptor.rs:166-173 | copying into a grant changes the ring there and nowhere else |
| `DisruptorCore.Core.Commit` | libs/db/src/disruptor.rs:175-195 | dropping a grant is marking, then publishing |
| `DisruptorCore.Core.AddReader` | libs/db/src/disruptor.rs:95-102 | joining at the committed position |
| `DisruptorCore.Core.TryNext` | libs/db/src/disruptor.rs:229-247 | the object's read is the two loads of the state machine, and returns their range |
| `DisruptorCore.Core.FinishRead` | libs/db/src/disruptor.rs:314-321 | dropping a read grant moves the cursor to its end |
| `DisruptorCore.Core.RemoveReader` | libs/db/src/disruptor.rs:250-299 | leaving removes that reader and keeps the others |
| `Wal.HappenInv` | libs/db/src/disruptor.rs:64-247 | every event of the pushing task, of any reader and of the persist task, in steps of single accesses, keeps the ring, the half-copied record and the record of what was sent in step, unless a grant is of the unsafe family |
| `Wal.RunInv` | libs/db/src/disruptor.rs:64-247 | at every point of every run without such a grant, what the persist reader was sent is the records published, in order |
| `Wal.NeverStuck` | libs/db/src/lib.rs:618-627 | a push that has its grant can always make its next access; it publishes its record exactly once and then ends |
| `Wal.FixedRecordsHarmless` | libs/db/src/lib.rs:577-628 | for records of one size that does not divide the ring, no run has such a grant |
| `Wal.ShortRunHarmless` | libs/db/src/disruptor.rs:66-86 | for records of any sizes, no run has one in which no grant ends exactly at the end of the ring |
| `VTables.RealizeField` | libs/metor-proto/src/vtable.rs:369-428 | the unbounded loop computes the recursive meaning of the field in at most as many rounds as there are operations |
| `VTables.FieldHasView` | libs/metor-proto/src/vtable.rs:389-404 | against a table every realized field has a view, so `apply` never panics |
| `VTables.RealizeFields` | libs/metor-proto/src/vtable.rs:365-429 | one result per field, with a view whenever there is a table |
| `VTableMeaning.PrimSizes` | libs/metor-proto/src/types.rs:119-169 | the primitive types in the order of their codes, and their sizes |
| `VTables.CountIsProduct` | libs/metor-proto/src/types.rs:340-342 | the checked multiplication is the product of the dimensions, and fails exactly where a product of leading ones reaches 2^64 |
| `VTables.ViewExact` | libs/metor-proto/src/types.rs:335-400 | a view exists if and only if the product of the dimensions fits, its bytes are there and aligned and its booleans are valid; it holds exactly product times element size bytes from the front; and which error comes otherwise |
| `VTableMeaning.EvalMeans` | libs/metor-proto/src/vtable.rs:288-357 | a builder node has the first fault in its own and its children's bytes, or the words, types, dimensions and ranges that those bytes spell |
| `VTableMeaning.WalkIsEnding` | libs/metor-proto/src/vtable.rs:365-429 | the walk along a field's decorations comes to the component at the end of the chain, under the schema and the timestamp nearest to it, seen through the first product-of-dimensions elements of its range, or to the first fault |
| `VTableMeaning.SinkIsFed` | libs/metor-proto/src/vtable.rs:436-456 | the sink is called once for each field in order, up to and with the first it refuses or up to the first that failed, and the outcome says which |
| `VTableMeaning.ApplyFeeds` | libs/metor-proto/src/vtable.rs:436-456 | applying a table feeds the sink so with the fields realized against it |
| `VTableBuilder.VisitExtends` | libs/metor-proto/src/vtable.rs:645-691 | a visit only appends, keeps every reference given out, and records the one it returns |
| `VTableBuilder.VisitOk` | libs/metor-proto/src/vtable.rs:645-691 | after a visit each operation mirrors its node and refers only to smaller indices, and each data range is aligned, in bounds and holds its node's bytes |
| `VTableBuilder.CompileCorrect` | libs/metor-proto/src/vtable.rs:286-429 | for any graph with sharing, compiling and realizing against any table equals evaluating the builders: ids, types, shapes, bytes, timestamps and errors; the program is well founded |
| `VTableMeaning.CompiledFieldMeans` | libs/metor-proto/src/vtable.rs:286-429 | so each field of a compiled program realizes to exactly that, with any table or none |
| `VTableBuilder.RustAndCppAgree` | libs/db/cpp/vtable.hpp:219-306 | the Rust and the C++ builder mean the same where 16 bits suffice, although they visit the children of an extension in different orders |
| `VTableBuilder.CompiledDataRanges` | libs/metor-proto/src/vtable.rs:651-661 | every data node ends up aligned as asked, in bounds and unchanged by later visits |
| `VTableBuilder.CompiledSize` | libs/metor-proto/src/vtable.rs:645-691 | a graph compiles to at most one operation per node and no more data than its data nodes and their padding |
| `VTableBuilder.SmallGraphsCompile` | libs/db/cpp/vtable.hpp:219-306 | so for graphs of up to 65536 nodes and less than 65536 bytes of data and padding both builders are right, with no condition on their output |
| `VTableBuilder.DataFitsIff` | libs/metor-proto/src/vtable.rs:652-660 | the program of a single data node realizes to its bytes if and only if their number is below the width's limit, so a limit is needed |
| `VTableBuilderObject.BuilderObject.Pad` | libs/metor-proto/src/vtable.rs:653-657 | the padding loop extends the data to the next multiple of the alignment with zeros |
| `VTableBuilderObject.BuilderObject.Visit` | libs/metor-proto/src/vtable.rs:645-691 | the recursive method with its memo is the compiler function |
| `VTableBuilderObject.BuilderObject.PushField` | libs/db/cpp/vtable.hpp:295-306 | appends the field with the reference of its argument |
| `VTableBuilderObject.BuildVTable` | libs/metor-proto/src/vtable.rs:695-708 | the loop over the field builders is `Compile` |
| `TimeSeries.AppendLog.constructor` | libs/db/src/append_log.rs:55-77 | a new log is empty and has the size asked for, plus one byte |
| `TimeSeries.AppendLog.Write` | libs/db/src/append_log.rs:138-153 | appends all of the buffer and returns where, or changes nothing, and fails exactly when it does not fit |
| `TimeSeries.AppendLog.Len` | libs/db/src/append_log.rs:120-122 | the committed length without the header is the length of the contents |
| `TimeSeries.AppendLog.Capacity` | libs/db/src/append_log.rs:155-157 | the room for contents, header excluded |
| `TimeSeries.RowsIgnoreExtraData` | libs/db/src/time_series_2.rs:343-357 | data written ahead of the index shows no sample, so between the two writes every visible index has its row |
| `TimeSeries.RowAt` | libs/db/src/time_series_2.rs:152-157 | the accessors by position read the sample of that position |
| `TimeSeries.Writer.TryPushBuf` | libs/db/src/time_series_2.rs:343-357 | the method is `TryPush` |
| `TimeSeries.Writer.Push` | libs/db/src/time_series_2.rs:328-341 | the retry loop is `PushBuf` and makes at most one node |
| `TimeSeries.PushBufExact` | libs/db/src/time_series_2.rs:328-357 | a push stores its sample if and only if it fits the head, or a new node has a free name and it fits there; then the samples grow by it, else they are unchanged; older nodes never change |
| `TimeSeries.IndexNeverFirst` | libs/db/src/time_series_2.rs:343-357 | for rows of eight bytes or more the index never fills before the data |
| `TimeSeries.WideRowsAlwaysStore` | libs/db/src/time_series_2.rs:328-357 | so that such a push fails only on a name already used |
| `TimeSeries.NarrowRowsOverflow` | libs/db/src/time_series_2.rs:343-357 | one-byte rows do overflow the index |
| `Persist.ParseInvertsEncode` | libs/db/src/lib.rs:585-599 | the parse loop undoes the record encoding on whole records and drops nothing |
| `Persist.PersistChunk` | libs/db/src/lib.rs:583-600 | the loop over a shrinking slice stores exactly the parsed records |
| `Persist.StoreAllExact` | libs/db/src/lib.rs:583-600 | an empty series stores all of a sorted sequence, in order, if and only if the first samples of successive would-be nodes have rising times and, for rows narrower than a timestamp, there are not more samples than a node's index holds |
| `Persist.PackedStep` | libs/db/src/time_series_2.rs:328-341 | one sample more is stored or refused exactly by how full the newest node is and how its name compares |
| `Persist.StoredInOrder` | libs/db/src/time_series_2.rs:328-341 | whatever is dropped, what is stored stays in order of time |
| `Persist.BurstIsNotStored` | libs/db/src/time_series_2.rs:333-337 | one sample more than a node takes, all of one time, is not stored in full |
| `Persist.NarrowRowsAreNotStored` | libs/db/src/time_series_2.rs:343-357 | nor are more narrow rows than an index holds |
| `Persist.WideRowsFit` | libs/db/src/time_series_2.rs:343-357 | rows of eight bytes or more never meet that limit |
| `Component.Component.PushBuf` | libs/db/src/lib.rs:612-628 | late samples are refused, samples without room skipped, and the others reach the ring as one record; only they move the last timestamp |
| `Component.HappenInv` | libs/db/src/lib.rs:577-628 | every event of a component, limited only by the code's own tests, keeps the end-to-end invariant, unless a grant is of the unsafe family |
| `Component.SystemRunInv` | libs/db/src/lib.rs:577-628 | it holds at every point of every run without such a grant |
| `Component.ChunkIsRecords` | libs/db/src/lib.rs:583-599 | what the persist task reads is whole records, those not yet stored |
| `Component.EndToEnd` | libs/db/src/lib.rs:577-628 | for every run of the code when records do not divide the ring: the nodes are what storing the samples read so far makes of none; they hold exactly those samples if and only if a series can store them all, are in order of time in any case, and cover all samples pushed once nothing is left to read |
| `Component.EndToEndIfHarmless` | libs/db/src/lib.rs:577-628 | the same for any ring, of the runs in which no push was admitted over a full ring |
| `MsgLog.BufLog.Insert` | libs/db/src/msg_log_2.rs:130-144 | the two logs change as `InsertMsg` says, including data left behind by a failed insert |
| `MsgLog.LookupInline` | libs/metor-proto/src/buf.rs:201-207 | a message of up to twelve bytes is read from its entry |
| `MsgLog.LookupOffset` | libs/metor-proto/src/buf.rs:214-226 | a longer one is read from the data log at its offset modulo 2^32 |
| `MsgLog.InlineLayout` | libs/metor-proto/src/buf.rs:192-206 | an entry byte by byte: length, the message, zeros |
| `MsgLog.OffsetLayout` | libs/metor-proto/src/buf.rs:214-226 | or length, the message's first four bytes, four zeros and the low 32 bits of the offset |
| `MsgLog.InsertExact` | libs/db/src/msg_log_2.rs:130-144 | an insert is accepted if and only if the entry fits and, for a long message, its bytes do; a refused one adds no entry, though perhaps data |
| `MsgLog.GetMsgStable` | libs/db/src/msg_log_2.rs:118-128 | appending never changes a message already readable |
| `MsgLog.InsertStores` | libs/db/src/msg_log_2.rs:130-144 | an insert adds its message at the end of those readable |
| `MsgLog.InsertsReadBack` | libs/db/src/msg_log_2.rs:118-144 | after any run of inserts, while the data log stays within 2^32 bytes, `get_msg(i)` is the i-th message accepted |
| `MsgLog.OffsetWraps` | libs/db/src/msg_log_2.rs:135-135 | beyond that a long message reads back if and only if the log holds the same bytes at the wrapped offset |
| `MsgLog.OffsetWrapLosesMessage` | libs/db/src/msg_log_2.rs:130-144 | after 2^32 bytes of zeros, an accepted message of ones reads back as zeros |
| `MsgLog.FilledRun` | libs/db/src/msg_log_2.rs:130-144 | the log of that example is reached by a run of inserts |
| `MsgPersist.ParseInvertsFrames` | libs/db/src/msg_log_2.rs:493-519 | repeated `read_msg` undoes the framing of any sequence of messages |
| `MsgPersist.FramesInvertParse` | libs/db/src/msg_log_2.rs:493-519 | on any buffer, the frames of the messages parsed and the leftover make up the buffer |
| `MsgPersist.PushMsg` | libs/db/src/msg_log_2.rs:277-302 | a push commits one frame of timestamp, length and message, or leaves the ring as it was |
| `MsgPersist.MsgWriter.TryPushMsg` | libs/db/src/msg_log_2.rs:304-315 | the method is `TryPush` |
| `MsgPersist.MsgWriter.Persist` | libs/db/src/msg_log_2.rs:476-486 | the retry loop is `PersistMsg` and makes at most one node |
| `MsgPersist.MsgWriter.PersistChunk` | libs/db/src/msg_log_2.rs:439-471 | the parse loop stores exactly the messages `read_msg` would return |
| `MsgPersist.PersistExact` | libs/db/src/msg_log_2.rs:476-486 | a message is stored if and only if it fits the head, or a new node has a free name and it fits there; the stored messages grow by exactly that |
| `MsgPersist.StoreAllExact` | libs/db/src/msg_log_2.rs:439-486 | messages are all stored, in order, if and only if each finds room in the newest node or a new node with a free name, judged by their lengths and timestamps alone; for logs of up to 2^32 bytes or messages of fewer in all |
| `MsgPersist.StoreAllFromEmpty` | libs/db/src/msg_log_2.rs:439-486 | the same for an empty log |
| `MsgPersist.DistinctIsPlaceable` | libs/db/src/msg_log_2.rs:476-486 | messages with distinct timestamps always find a place |
| `MsgPersist.BurstIsNotStored` | libs/db/src/msg_log_2.rs:476-486 | one message more than a node takes, all of one time, is not stored in full |
| `MsgPersist.PersistWithin` | libs/db/src/msg_log_2.rs:130-144 | no node gets more data from a message than the message's own length, failed inserts included |
| `MsgPersist.ChunksAreMessages` | libs/db/src/msg_log_2.rs:439-471 | however reads cut the stream, persisting chunk by chunk is persisting message by message |
| `MsgSystem.HappenInv` | libs/db/src/msg_log_2.rs:277-471 | every event of pushes, readers and the persist task keeps the link between messages pushed, ring and nodes, unless a grant is of the unsafe family |
| `MsgSystem.MessagesEndToEnd` | libs/db/src/msg_log_2.rs:277-471 | for every run without such a grant: the nodes are what storing the messages read so far makes of none; they hold exactly those if and only if all find a place, while offsets fit; and those are all messages pushed once nothing is left to read |
| `MsgSystem.MessagesEndToEndShort` | libs/db/src/msg_log_2.rs:277-471 | in particular for every run in which no grant ends exactly at the end of the ring |
| `AtomicStack.StepInv` | libs/db/src/arc_ring.rs:41-64 | every access of any push or iterator keeps the stack well linked |
| `AtomicStack.PublishedIsStable` | libs/db/src/arc_ring.rs:41-64 | a published node's link, value and place never change |
| `AtomicStack.PushIsAtomic` | libs/db/src/arc_ring.rs:47-63 | a swap publishes its node, on top of all published, if and only if the head is the one loaded and the exchange does not fail spuriously; a swap that does not changes nothing but its push; no other step touches head or published nodes |
| `AtomicStack.EveryPushOnce` | libs/db/src/arc_ring.rs:41-64 | at every point of every run each node allocated is published, exactly once, or its push is under way |
| `AtomicStack.IterYieldsSnapshot` | libs/db/src/arc_ring.rs:90-145 | an iterator yields exactly the nodes published when it was made, newest first |
| `AtomicStack.IterYieldsInOrder` | libs/db/src/arc_ring.rs:90-145 | at every point an iterator has yielded the newest nodes of its snapshot from the top down, is at its end exactly when those are all, and yields one more with each call until then |
| `AtomicStack.UndisturbedPush` | libs/db/src/arc_ring.rs:47-63 | a push that starts anew and is not disturbed publishes its node on top, linked to the old head |
| `AtomicStack.NodeHoldsItsValue` | libs/db/src/arc_ring.rs:41-64 | every node holds what it was made with, at every later point of every run |
| `Search.BinarySearch` | libs/db/src/time_series_2.rs:268-271 | an index of the time, or the place where it would go |
| `Search.Scan` | libs/db/src/time_series_2.rs:243-266 | nodes that begin after the time are passed over and the last one remembered |
| `Search.AfterNode` | libs/db/src/time_series_2.rs:247-258 | in a gap the newer node is taken if and only if its last sample is strictly nearer than the first sample of the older, by plain subtraction |
| `Search.AtNode` | libs/db/src/time_series_2.rs:246-278 | the newest node that begins no later than the time decides: it is taken, or in a gap the one after it as said above |
| `Search.InNode` | libs/db/src/time_series_2.rs:267-278 | inside a node the match, or the sample on the side asked for |
| `Search.Nearest` | libs/db/src/time_series_2.rs:228-282 | nothing only for an empty list or an empty node met; inclusive: a sample with no other strictly between it and the time, at the time if any is; exclusive: its insertion point; which node, and which timestamp is reported |
| `Search.ReportsOwnTime` | libs/db/src/time_series_2.rs:253-277 | the timestamp reported is the sample's own if and only if the time falls inside the node or all its samples have one time |
| `Search.ReportsOtherTime` | libs/db/src/time_series_2.rs:253-257 | a search past two samples finds the second and reports the time of the first |
| `Search.ChosenIsOldest` | libs/db/src/time_series_2.rs:243-281 | the search lands in the oldest node if and only if a few comparisons with its ends and those of the node above hold |
| `Search.ClosestInGapIff` | libs/db/src/time_series_2.rs:247-258 | the sample found in a gap is the closest of all if and only if the near ends of the two nodes compare as their far ends do |
| `Search.NotTheNearest` | libs/db/src/time_series_2.rs:228-282 | a search for the nearest that passes over a sample one away for one eight away |
| `ReplySlices.NodeSlice` | libs/db/src/time_series_2.rs:89-108 | timestamps and rows of a slice are the same samples; it panics exactly when the range runs backwards |
| `ReplySlices.RangeSlices` | libs/db/src/time_series_2.rs:117-136 | the slices go from the start's node to the oldest; a panic exactly for an inverted range inside one node |
| `ReplySlices.TailFits` | libs/db/src/lib.rs:957-974 | the backward copies never run past the front of the reply, for any slices and limit |
| `ReplySlices.CopySlices` | libs/db/src/lib.rs:957-974 | the copying loop, whatever it skips, fills times and rows in step from the back |
| `ReplySlices.Fill` | libs/db/src/lib.rs:935-974 | the buffers hold `Reply` of the slices |
| `ReplyContents.TailHolds` | libs/db/src/lib.rs:957-974 | of the parts of a range the copying loop keeps fronts, newest part first: each loses from its end what is still to be dropped, which then shrinks by what was kept |
| `ReplyContents.JoinedIsAnswer` | libs/db/src/time_series_2.rs:117-136 | the parts joined are all nodes older than the start's, oldest first and whole, but the end's node only up to the end, and then the start's node from the start |
| `ReplyContents.ReplyIsAnswer` | libs/db/src/lib.rs:935-974 | without a limit a reply holds exactly those samples |
| `ReplyContents.ReplyIsLimitedAnswer` | libs/db/src/lib.rs:935-974 | with a limit its length is the smaller of limit and count; its back is the fronts kept, and zeros make up what is missing before them |
| `RangeReply.NeverBackwards` | libs/db/src/time_series_2.rs:284-288 | a range that is not inverted never indexes backwards |
| `RangeReply.OneNodeReply` | libs/db/src/lib.rs:930-974 | one node: the reply is the first min(limit, n) samples with a <= t <= b, times and rows in step, if and only if the series begins no later than b or the limit is zero |
| `RangeReply.AnyNodesReply` | libs/db/src/time_series_2.rs:117-136 | for any number of nodes the reply is what was asked for if and only if the range starts in the oldest node, by comparisons with node ends, that node begins no later than b, and no newer node has a sample in the range or the limit is reached before; with a limit and several nodes, for ranges after time zero |
| `RangeReply.ReplyFront` | libs/db/src/lib.rs:957-974 | a reply begins with the first sample of the oldest slice, or with a zero that nothing was copied over |
| `RangeReply.GetRange` | libs/db/src/time_series_2.rs:284-288 | both searches, failing exactly for an empty list or head |
| `RangeReply.GetTimeSeries` | libs/db/src/lib.rs:930-974 | the whole query over any number of nodes: when it errs, that it does not panic, in which nodes the range starts and ends, which samples the reply holds with and without a limit, and exactly when that is what was asked for |
| `RangeReply.TwoNodeQuery` | libs/db/src/time_series_2.rs:117-136 | two samples stored in two nodes and asked for together: the reply lacks the second |
| `RangeReply.WriteReply` | libs/db/src/lib.rs:923-955 | the packet is count, timestamps and rows, under a prefix that matches its length |
| `RangeReply.ClientReadsReply` | libs/metor-proto/src/types.rs:865-882 | the client parses that frame back to the same timestamps and rows |
| `RangeReply.ReceiveReply` | libs/stellarator/src/io.rs:87-138 | whatever the chunking, a reply of less than 2^32 bytes is cut from the stream by its prefix and read back as it was sent, and what follows stays unread |
| `BitVec.AtomicBitVec.AllSetNow` | libs/db/src/vtable_stream.rs:502-508 | the summing loop decides the popcount test of the flags held |
| `BitVec.AtomicBitVec.Store` | libs/db/src/vtable_stream.rs:510-515 | every word, padding bits included, is set or cleared |
| `BitVec.PerformAllInv` | libs/db/src/vtable_stream.rs:474-515 | over any run of calls, padding bits are clear or all bits are set |
| `BitVec.AllSetExact` | libs/db/src/vtable_stream.rs:502-508 | over any run of calls, the popcount test holds if and only if every flag reads true |
| `BitVec.ReadsAsRaised` | libs/db/src/vtable_stream.rs:474-515 | over any run of calls, a flag reads as the last call that wrote it says, a lowering one not counting, and there is none past the size |
| `FieldTable.NeverPanics` | libs/db/src/vtable_stream.rs:245-249 | the packet is missing only while every flag is set and no plan is inside a round, so no access finds it missing |
| `FieldTable.StepInv` | libs/db/src/vtable_stream.rs:154-250 | every step of plans and sender, flags read and cleared word by word, keeps the invariant |
| `FieldTable.NoStepPanics` | libs/db/src/vtable_stream.rs:209-249 | no step of any run finds the packet missing: it is there, in full length, for every closure and every take |
| `FieldTable.EverySendIsOneRound` | libs/db/src/vtable_stream.rs:438-467 | in every interleaving, packet k carries in each range that one plan alone writes, data or timestamp, exactly what was there at the end of that plan's round k, and no plan is more than one round ahead |
| `FieldTable.EverySendCarriesWrites` | libs/db/src/vtable_stream.rs:245-467 | in every interleaving, packet k carries in each such range the bytes that its plan last wrote there before its round k ended |
| `FieldTable.EverySendIsFramed` | libs/db/src/vtable_stream.rs:154-161 | in every interleaving, packet k has the first packet's length and its bytes wherever no plan writes, and its own request id in byte 7 |
| `FieldTable.RoundOfPlan` | libs/db/src/vtable_stream.rs:230-250 | a waiting plan whose flag is down can do its round: its bytes reach the packet and its flag alone goes up |
| `FieldTable.UnfinishedRoundRepeats` | libs/db/src/vtable_stream.rs:445-466 | a round in which a stage has not finished raises no flag and leaves the plan free to begin another |
| `FieldTable.TestSucceedsIff` | libs/db/src/vtable_stream.rs:502-508 | an undisturbed test of the flags lets the packet be taken if and only if every flag is up |
| `FieldTable.TurnOfSender` | libs/db/src/vtable_stream.rs:154-161 | after the test the sender takes the packet, sends it once with its request id and puts it back |
| `FieldTable.FlagsAllDown` | libs/db/src/vtable_stream.rs:219-222 | and clears every flag, word by word |
| `FieldTable.AbortEndsStream` | libs/db/src/vtable_stream.rs:438-467 | once a plan has ended no packet is sent any more, in any interleaving |
| `TableLayout.NextSlot` | libs/db/src/lib.rs:1620-1627 | the running offset, by masks, gives the slot defined by the modulus |
| `TableLayout.SlotExact` | libs/db/src/lib.rs:1620-1627 | a slot's timestamp and data lie at the first multiples of their alignments, and its data is as long as product of dimensions times element size |
| `TableLayout.DescribeTable` | libs/db/src/lib.rs:1615-1632 | the visit builds the planned graph and fields |
| `TableLayout.PushEntry` | libs/db/src/lib.rs:1649-1651 | padding, timestamp, padding, data |
| `TableLayout.AppendExact` | libs/db/src/lib.rs:1649-1651 | what is appended for a component byte by byte: zeros up to the slot, timestamp, zeros, sample |
| `TableLayout.PopulateTable` | libs/db/src/lib.rs:1634-1656 | the table holds the entries of the components with a sample, and their number is returned |
| `TableLayout.BodyFollowsPlan` | libs/db/src/lib.rs:1615-1656 | each component's bytes lie where the vtable's offsets say, the packet's eight leading bytes notwithstanding |
| `TableLayout.LayoutAgrees` | libs/db/src/lib.rs:1615-1656 | each field of the compiled vtable realizes to the component put in |
| `TableLayout.TableArrivesIffVisitsAgree` | libs/metor-proto/src/vtable.rs:436-456 | applying the table sinks exactly the components with a sample, in order, with their timestamps and data, if and only if no component has a node but no sample |
| `TableLayout.EmptyNodeMisreads` | libs/db/src/lib.rs:1619-1648 | such a component is given the next one's sample |
| `Framing.LengthDelReader.Read` | libs/stellarator/src/io.rs:71-85 | leftovers first, then the stream in chunks of any size, nothing lost or reordered |
| `Framing.LengthDelReader.FillTo` | libs/stellarator/src/io.rs:99-128 | the reading loops stop at the target or at the end of the input |
| `Framing.LengthDelReader.Recv` | libs/stellarator/src/io.rs:94-138 | succeeds exactly when a whole frame is there and fits; returns its payload and leaves exactly what follows; otherwise, with larger leftovers, rotated |
| `Framing.RecvMany` | libs/stellarator/src/io.rs:87-138 | for any chunking, successive receives return exactly the payloads framed, in order |
| `Framing.SplitterInvertsFrame` | libs/stellarator/src/io.rs:111-136 | the simple splitter undoes framing |
| `Framing.SmallerBufferReorders` | libs/stellarator/src/io.rs:129-133 | two receives, the second into a buffer smaller than the leftovers: both payloads are right and the rest is out of order |
| `Framing.LeftoversInOrderIff` | libs/stellarator/src/io.rs:129-133 | leftovers longer than the buffer stay in order, whatever they are, if and only if the first frame fills the buffer |
| `Packets.MaskIsPadding` | libs/metor-proto/src/types.rs:134-138 | rounding by mask is rounding by modulus, for every primitive type |
| `Packets.LenPacket.constructor` | libs/metor-proto/src/types.rs:626-633 | a new packet has an empty body and a matching prefix |
| `Packets.LenPacket.Push` | libs/metor-proto/src/types.rs:673-677 | one byte more, prefix in step |
| `Packets.LenPacket.ExtendFromSlice` | libs/metor-proto/src/types.rs:697-701 | the buffer appended, prefix in step |
| `Packets.LenPacket.PushAligned` | libs/metor-proto/src/types.rs:679-686 | zeros up to the alignment, then the value, prefix in step |
| `Packets.LenPacket.PadForType` | libs/metor-proto/src/types.rs:667-671 | zeros up to the type's alignment |
| `Packets.LenPacket.SetRequestId` | libs/metor-proto/src/types.rs:653-655 | changes that byte of the header only |
| `Packets.LenPacket.Clear` | libs/metor-proto/src/types.rs:723-726 | empties the body and keeps the header |
| `Packets.ParseInvertsContent` | libs/metor-proto/src/types.rs:751-803 | every packet of every kind parses back to itself |
| `Packets.ParseExact` | libs/metor-proto/src/types.rs:751-803 | a frame is a packet if and only if it has a header of a known type and eight bytes more where the type needs them; then it is what would be sent for that packet; and which error comes otherwise |
| `Packets.WireIsFrame` | libs/metor-proto/src/types.rs:625-701 | a packet's bytes are the length-prefixed frame of its content |
| `Packets.ReceivePackets` | libs/stellarator/src/io.rs:87-138 | for any chunking, the packets received are the packets sent, in order |
| `Postcard.VarintLength` | libs/postcard-c/postcard.h:928-951 | the size function is the number of bytes written, for all 64-bit values |
| `Postcard.ReadInvertsVarint` | libs/postcard-c/postcard.h:487-514 | the shifting, or-ing decoder undoes the encoder, from any shift on |
| `Postcard.ReadVarintExact` | libs/postcard-c/postcard.h:487-514 | on any bytes: decoding succeeds if and only if a byte without the top bit comes within reach, with the value of the bytes up to it in 64 bits and what follows them; and which error, and how much is consumed, otherwise |
| `Postcard.UnsignedRoundTrip` | libs/postcard-c/postcard.h:740-795 | every u16, u32 and u64 decodes to itself, within 3, 5 and 10 bytes |
| `Postcard.DecodeUnsignedExact` | libs/postcard-c/postcard.h:740-795 | any bytes decode to a value of the width if and only if a last byte comes among the width's bytes and the value is below the width's limit; what is too large is refused as an overflow |
| `Postcard.TenthByteIsCut` | libs/postcard-c/postcard.h:487-514 | but of a tenth byte only the lowest bit is looked at |
| `Postcard.ZigZagRoundTrip` | libs/postcard-c/postcard.h:480-527 | the zigzag value is 2v or -2v-1, and is undone |
| `Postcard.SignedRoundTrip` | libs/postcard-c/postcard.h:753-800 | every i16, i32 and i64 decodes to itself, within the same bytes |
| `Postcard.DecodeSignedExact` | libs/postcard-c/postcard.h:753-800 | any bytes: refused exactly where the unsigned form would be, and else the zigzag value |
| `Postcard.Slice.EncodeVarint` | libs/postcard-c/postcard.h:454-477 | appends the whole varint, or fails and leaves length and contents as they were; fails exactly when it does not fit |
| `Postcard.Slice.DecodeVarint` | libs/postcard-c/postcard.h:487-514 | the loop is `ReadVarint`, errors and bytes consumed included |
| `Postcard.Slice.EncodeU8` | libs/postcard-c/postcard.h:540-549 | one byte, or unchanged |
| `Postcard.Slice.DecodeU8` | libs/postcard-c/postcard.h:718-727 | one byte, or unchanged |
| `Postcard.Slice.EncodeByteArray` | libs/postcard-c/postcard.h:634-655 | succeeds exactly when length and bytes fit; on failure the length may stay written |
| `Postcard.Slice.DecodeByteArray` | libs/postcard-c/postcard.h:854-872 | the bytes asked for, refused exactly for zero, too many or too few |
| `Postcard.ByteArrayRoundTrip` | libs/postcard-c/postcard.h:840-872 | an encoded byte array is decoded to itself if and only if it is not empty |
| `VTableMessage.OpRoundTrip` | libs/db/examples/db.hpp:2504-2641 | every operation decodes to itself, whatever follows |
| `VTableMessage.FieldRoundTrip` | libs/db/examples/db.hpp:1740-1776 | every field decodes to itself |
| `VTableMessage.WireOps` | libs/db/examples/db.hpp:2504-2555 | the bytes of an operation of every kind |
| `VTableMessage.MessageRoundTrip` | libs/db/examples/db.hpp:3252-3327 | every vtable decodes to itself and leaves what follows |
| `VTableMessage.WireMessage` | libs/db/examples/db.hpp:3252-3274 | the bytes of a whole message |
| `VTableDecoding.DecodeOpExact` | libs/db/examples/db.hpp:2568-2641 | any bytes decode to an operation if and only if they begin with a known tag and the numbers and bytes of its kind, each of 16 bits; else a default operation is left |
| `VTableDecoding.DecodeFieldExact` | libs/db/examples/db.hpp:1763-1776 | any bytes decode to a field if and only if they begin with three such numbers; of one that breaks off the numbers read are kept |
| `VTableDecoding.CountedExact` | libs/db/examples/db.hpp:3287-3327 | on any bytes, a counted sequence is accepted if and only if its count can be read and its last element decodes; every element is what its bytes decode to |
| `VTableDecoding.DecodeMessageExact` | libs/db/examples/db.hpp:3287-3327 | a message is accepted if and only if its three sequences are, and those after one that is not stay empty |
| `VTableMessage.LastDecides` | libs/db/examples/db.hpp:3294-3299 | a sequence is accepted if and only if its last element decodes |
| `VTableMessage.UnknownTagAccepted` | libs/db/examples/db.hpp:3294-3299 | an unknown tag before a known one goes unnoticed |
| `VTableMessage.OpSizeExact` | libs/db/examples/db.hpp:2441-2474 | an operation's size is the length of its encoding |
| `VTableMessage.EncodedSize` | libs/db/examples/db.hpp:3203-3219 | the size loops give the exact length of the message |
| `VTableMessage.EncodeOp` | libs/db/examples/db.hpp:2504-2555 | appends the operation exactly when it fits |
| `VTableMessage.EncodeExt` | libs/db/examples/db.hpp:2233-2255 | likewise, although the result of the first id byte is overwritten |
| `VTableMessage.EncodeOps` | libs/db/examples/db.hpp:3254-3259 | a count that does not fit leaves no room for that many elements, so its overwritten error still surfaces |
| `VTableMessage.EncodeMessage` | libs/db/examples/db.hpp:3252-3274 | appends the message if and only if it fits |
| `VTableMessage.EncodeVec` | libs/db/examples/db.hpp:3230-3249 | a vector of the computed size is always filled exactly, so it is never cleared |
| `VTableMessage.ReadOp` | libs/db/examples/db.hpp:2568-2641 | the method is `DecodeOp`, failures included |
| `VTableMessage.ReadField` | libs/db/examples/db.hpp:1763-1776 | the method is `DecodeField`; members not reached keep what they held |
| `VTableMessage.ReadMessage` | libs/db/examples/db.hpp:3287-3327 | the loops are `DecodeMessage` |
| `VTableMessage.SendAndReceive` | libs/db/examples/db.hpp:3230-3327 | encoding into a vector and decoding from it returns the vtable |
| `VTableWire.CompiledIsSendable` | libs/db/cpp/vtable.hpp:219-306 | whatever the C++ builder compiles within 16 bits can be encoded |
| `VTableWire.SentVTableKeepsMeaning` | libs/db/cpp/vtable.hpp:219-306 | built, encoded, decoded and realized against any table, it means what the builders mean |

## Left out

- Memory orderings and reference counts: steps are sequentially consistent and nodes are never freed.
- Files, mapping and reopening: a log is an array and a committed length, and results cover one process lifetime; a reopened list is pushed in directory order.
- Concurrent pushers into one ring: `try_grant` loads the committed position before it takes the lock; the model makes load, lock and scan one step, and registering (load and link) one step.
- Races on the reader list itself: the readers of a ring are a map, and joining and leaving are atomic.
- Wakers, wait queues, timers, sockets and tasks: a step may happen whenever the code's condition for it holds, so nothing is said about progress or about lost wake-ups.
- Addresses: alignment is that of offsets from an aligned base.
- `AtomicStack::try_push` and spurious failure of its weak exchange: the persist task is the only pusher and its exchange is taken to succeed. `AtomicStack::push` is modelled with spurious failures.
- The inner code of stream stages, `MeanStage` arithmetic included: a stage is any sequence of writes to its field's ranges that finishes or fails.
- The sink beyond its answers: `apply` sees a sink as accepting or refusing each call.
- Queries while a node is being written: a query sees one snapshot of the list and its nodes.
- Equal timestamps in range queries: results on replies are for strictly increasing times, since with equal ones the answer depends on which of them the library's binary search returns. `Search.Nearest` allows equal times.
- Allocation failure and the time to decode hostile counts: a decoded count is looped over as it is.
- The Rust encoding of vtables, which a library derives: only the generated C++ codec is modelled.
- Component.EndToEnd: is for records that do not divide the ring and rows that fit a node; `EndToEndIfHarmless` is for all rings but for the runs in which no push was admitted over a full ring, since such a push does lose samples.
- MsgSystem.MessagesEndToEnd: is for runs in which no push was admitted over a full ring, since message sizes vary and a grant can always end at capacity; what is read back is stated for logs of up to 2^32 bytes or messages of fewer in all, and `OffsetWraps` says what happens beyond.
- RangeReply.AnyNodesReply: with a limit and several nodes, is for ranges that start after time zero, because zeros that were not copied over can pass for a sample at time zero.
- TableLayout.LayoutAgrees: component ids are opaque 64-bit values and booleans are valid.
- Message logs' search and range queries, which repeat the time-series code.
- Hashing of names, metadata, SQL and Arrow, HTTP, user interface and the mathematics libraries.
