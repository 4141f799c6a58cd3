# Reading recorded robot data: a verified model

The C++ library modelled here reads ROS bags. It decodes serialized messages (ROS1 and CDR) by
schema, under budgets for sequence elements, decoded storage and nesting; it merges messages of many
connections, files and readers into one time-ordered stream; it generates message types and readers
from definitions; and it opens indexed, compressed and unindexed containers without trusting the
lengths they announce. This project models that logic in Dafny and proves what the code is for.
`dafny verify dfyconfig.toml` checks all of it.

## How the model is organised

**Wire decoding with budgets.** `Schema` holds types, values and the static lower bound
`WireMinimum`; `Codec` is one interpreter for all generated and hand-written readers, with the
encoder the wire formats prescribe (CDR: section 9.3 of OMG CORBA 3 Part 2; encapsulation header:
section 10 of DDSI-RTPS 2.2). `Reader` is the mutable cursor with its position, charge and nesting
depth, every method tied to the interpreter, and `ReadingRules` says in bytes and numbers what each
read delivers. On top stand the main results: the early rejection of long sequences never changes
what is accepted (`WireBound`), limits are exact thresholds of a value's cost (`Budget`,
`RoundTrip`), payloads round trip in every format and byte order (`RoundTrip`), and both formats
cost the same (`Formats`). `Emission` shows that the constants are well founded and never wrap;
`Profiles` instantiates built-in types whose two layouts differ.

**Ordered reading.** `StableOrder` characterises the one order promised, a stable sort by timestamp,
and `KWayMerge` shows that merging sorted streams, also in several layers, is that sort;
`FailingMerge` says where such a merge stops if streams fail. `DelayedMerge` is the cursor shared by
directories and multi-reader input: it delivers a message before it refills the source the message
came from, so a failure behind a message never hides it. `Filters` holds the one restriction every
backend applies and spells out what is delivered, message by message; `Directory`, `AnyReader` and
`Nested` show that merges inside merges, with filters translated between numberings of connections,
deliver one flat, filtered stable sort. `Ros1Cursor` and `Ros1Reading` do the same for the ROS1
cursor with its one-chunk cache (`Ros1Message` and `Ros1Written` write the bags it reads back),
`Spool` and `SpoolCursor` for the MCAP fallback, `Sqlite` for the query; `Backends` plugs them into
the merges. `Topics` covers topic names.

**Definitions.** `Definitions`, `Collection`, `Ordering` and `Generation` model the generator's
collection: one definition per name, every reference resolved, and a depth-first search that orders
definitions or finds a by-value cycle. `Emitted` shows that this order is what the constants of
`Emission` need. `TypeSuffix` covers the text of field types.

**Containers and streams.** `Records` parses ROS1 records, `Ros1Index` and `Ros1Open` build the
index against the exact condition for a consistent bag, `Container` walks an MCAP file's records,
and `Decompression` holds the loops around an arbitrary decompressor, whose outcomes
`DecompressorRuns` tells from its answers alone.

## Conventions

Failures are values. A `std::size_t` or `std::uint64_t` is a natural number; no subtraction goes
below zero, and what the readers compute stays within 64 bits. Floating-point values are kept as raw
bit patterns. Library functions that the code relies on enter as parameters with their contract:
`std::sort` is any function that returns an ordered permutation, a decompressor is any function that
takes at most what it is offered and gives at most what it has room for, the SQL engine returns the
joined rows that meet the conditions in the order asked for, and `std::priority_queue` hands out a
least element. Sizes of C++ objects are those of a 64-bit build.

Two properties hold only under a condition, which is stated exactly. Connection ids of `AnyReader`
are distinct if and only if there are at most 2^32 connections, because they come from a 32-bit
counter (`AnyReader.GlobalIdsAreDistinct`). A stop time above the largest signed 64-bit integer
would make the SQLite query empty if it were bound as it is (`Sqlite.UnclampedStopCutsAll`), which
is why the cursor leaves it out.

## Model

| member | source | states |
|---|---|---|
| `Bytes.Load64` | include/rosbags/serialization.hpp:35-40 | the accumulating loop yields the integer the eight bytes denote in the given order, and it never exceeds 64 bits |
| `Bytes.LoadStored` | include/rosbags/serialization.hpp:25-40 | in either byte order, loading what was stored gives back every value of the width |
| `Bytes.LoadIsSum` | include/rosbags/serialization.hpp:25-34 | the first byte counts once, the next 256 times and so on, or the other way round: two and four bytes as written-out sums |
| `Bytes.LoadIsSum8` | include/rosbags/serialization.hpp:35-40 | the same for eight bytes |
| `Codec.PaddingAligns` | include/rosbags/serialization.hpp:147-151 | after the padding a CDR primitive stands at a multiple of its own size, counted from the end of the encapsulation header |
| `Codec.RemainderIsModulo` | include/rosbags/serialization.hpp:147-151 | the remainder that padding is computed from is the modulus the code takes, for every primitive width |
| `WireBound.ConsumesMinimum` | src/codegen.cpp:424-437 | a successful read of any type, recursive ones included, moves the cursor by at least the type's `WireMinimum` |
| `WireBound.EarlyIsInvisible` | include/rosbags/serialization.hpp:69-71 | with and without the test against the remaining payload a read succeeds alike: same value, position and charge, under any limits |
| `WireBound.RejectedEarlyWouldFail` | include/rosbags/serialization.hpp:70-71 | when only the early test refuses a sequence length, reading that many elements is bound to run out of payload |
| `WireBound.EarlyRejectionIsPureOptimisation` | src/codegen.cpp:377-391 | for every schema, format, payload and limits, a whole payload decodes to a value with the early test exactly if it does without it |
| `Budget.ReadIsAccounted` | include/rosbags/serialization.hpp:64-77 | what a read delivers lies in its declared ranges, bounds and lengths, nests and extends within the limits, and was charged exactly its cost |
| `Budget.CoveringLimitsSuffice` | include/rosbags/serialization.hpp:64-77 | what decodes under some limits decodes to the same value, position and charge under any limits that cover the value's cost |
| `RoundTrip.PutThenRead` | include/rosbags/serialization.hpp:112-176 | at any position and alignment and in either byte order, the prescribed bytes of a value read back to the value and the cursor stops at their end |
| `RoundTrip.DecodedIsAccounted` | src/codegen.cpp:453-454 | a payload decodes to a value only if its format can carry the value and every limit covers it |
| `RoundTrip.LimitsAreExact` | include/rosbags/serialization.hpp:64-77 | element, storage and depth limits are exact thresholds: decoding succeeds if and only if they cover the value, and raising one never changes a result |
| `RoundTrip.EncodeThenDecode` | src/codegen.cpp:453-454 | the prescribed payload of every value a format can carry decodes to that value if the limits cover it, and to none otherwise |
| `RoundTrip.AcceptedHasCanonicalForm` | include/rosbags/serialization.hpp:112-176 | any accepted payload, whatever its padding and its non-zero booleans, decodes like the prescribed payload of its own value |
| `Formats.StorageAgrees` | include/rosbags/serialization.hpp:126-170 | the storage a value takes depends neither on the wire format nor on its numbers, also where one format has more scalar fields |
| `Formats.FormatsShareThresholds` | include/rosbags/serialization.hpp:126-170 | payloads of different formats or byte orders whose values agree but for numbers succeed under exactly the same limits |
| `Formats.ShapesMean` | include/rosbags/serialization.hpp:126-170 | values have one shape exactly if they differ in numbers alone, messages also in how many numbers they have |
| `Reader.BytesAtOnce` | src/codegen.cpp:384-386 | copying a `uint8` sequence in one piece is reading its elements one by one, failures included |
| `Reader.Reader.constructor` | include/rosbags/serialization.hpp:141-146 | a reader starts behind its encapsulation header with nothing charged and no nesting |
| `Reader.Reader.ReadBytes` | include/rosbags/serialization.hpp:51-59 | a view is taken and the position moved past it exactly if the payload still has that many bytes; the position never passes the end |
| `Reader.Reader.AccountAllocation` | include/rosbags/serialization.hpp:64-68 | the charge is added exactly if it fits what is left of the storage limit, without wrapping |
| `Reader.Reader.CheckSequence` | include/rosbags/serialization.hpp:69-77 | the three tests in their order, and a charge of count times element size computed only where the product cannot wrap |
| `Reader.Reader.Align` | include/rosbags/serialization.hpp:147-151 | the cursor skips exactly the padding, or fails at the end of the payload |
| `Reader.Reader.ReadUnsigned` | include/rosbags/serialization.hpp:154-158 | an aligned integer of the width, in the payload's byte order |
| `Reader.Reader.ReadString` | include/rosbags/serialization.hpp:126-170 | both string readers: bound, terminator and charge in the order of each format |
| `Reader.Reader.ReadByteValues` | include/rosbags/serialization.hpp:79-83 | delivers what reading that many `uint8` values one by one would deliver |
| `Reader.Reader.ReadValue` | include/rosbags/serialization.hpp:84-96 | one value as the schema interpreter defines it; the depth is back at its entry value on every way out, failures included, and never passes its limit |
| `Reader.Reader.ReadLength` | src/codegen.cpp:377-382 | length prefix, declared bound and storage test, before anything is reserved |
| `Reader.Reader.ReadSequence` | src/codegen.cpp:376-392 | a sequence, by bulk copy or element loop, is what the interpreter defines |
| `Reader.Reader.ReadFields` | src/codegen.cpp:363-394 | a message's fields in declaration order; terminates for every schema, recursive ones included |
| `Reader.Reader.ReadItems` | src/codegen.cpp:387-391 | the counted element loop; terminates also for elements that take no bytes |
| `Reader.Reader.Finish` | include/rosbags/serialization.hpp:61-63 | succeeds exactly if the whole payload has been consumed |
| `Reader.Deserialize` | src/codegen.cpp:453-454 | the generated entry points on the mutable cursor compute the specified decoding of every payload |
| `ReadingRules.ReadsBytes` | include/rosbags/serialization.hpp:112-125 | what one byte delivers as `uint8`, `int8`, `bool` and `byte`: every non-zero byte is true, `byte` is signed in ROS1 alone |
| `ReadingRules.ReadsPairs` | include/rosbags/serialization.hpp:114-115 | two bytes, read at the cursor in ROS1 and at the next even offset behind the header in CDR, the least first unless the payload is big-endian; two's complement if signed |
| `ReadingRules.ReadsWords` | include/rosbags/serialization.hpp:116-121 | the same for four bytes; a float is its bit pattern |
| `ReadingRules.ReadsDoubleWords` | include/rosbags/serialization.hpp:118-122 | the same for eight bytes |
| `ReadingRules.ReadsRos1Text` | include/rosbags/serialization.hpp:124-135 | a ROS1 string in bytes: length, bound, end of payload and storage are checked in this order, and one byte more than the string is charged |
| `ReadingRules.ReadsCdrText` | include/rosbags/serialization.hpp:164-172 | a CDR string in bytes: the length counts a final NUL that must be there, and the bound does not count it |
| `ReadingRules.ReadsSequence` | src/codegen.cpp:376-395 | a sequence in bytes and numbers: length, declared bound, element limit and storage of all elements, then the elements one by one |
| `ReadingRules.ReadsArray` | src/codegen.cpp:363-376 | a fixed array has neither length nor charge of its own |
| `ReadingRules.DecodesRos1` | src/codegen.cpp:453-454 | a ROS1 payload: the object is charged, the message is read from the first byte on, and nothing may be left |
| `ReadingRules.DecodesCdr` | include/rosbags/serialization.hpp:141-146 | a CDR payload: a zero byte, the byte order, two bytes ignored, and the message from the fifth byte on |
| `ReadingRules.LeastBytes` | src/codegen.cpp:424-437 | the static lower bound of each kind of type as a number of bytes |
| `ReadingRules.PayloadBegins` | include/rosbags/serialization.hpp:141-146 | the prescribed CDR payload begins with zero, its byte order and two zeros, a ROS1 payload with the value itself |
| `Emission.MinimumIsSumOfFields` | src/codegen.cpp:424-437 | on definitions in emission order a constant is the sum of its fields' final constants, so the recursive constants are well founded |
| `Emission.MinimumNeverWraps` | src/codegen.cpp:424-437 | no constant exceeds the size of the object, so its unsigned sums and products never wrap |
| `Profiles.TimeRow` | include/rosbags/profiles/wire_minimum.hpp:9-16 | the listed bound of Time and Duration is the one of the fields their readers assign |
| `Profiles.HeaderRow` | include/rosbags/profiles/wire_minimum.hpp:25-28 | Header: 16 bytes in ROS1, 13 in CDR, which lacks the sequence field |
| `Profiles.RegionRow` | include/rosbags/profiles/wire_minimum.hpp:173-176 | RegionOfInterest: 17 bytes in both formats |
| `Profiles.PointFieldRow` | include/rosbags/profiles/wire_minimum.hpp:253-256 | PointField: 13 bytes in ROS1, 14 in CDR |
| `Profiles.RangeRow` | include/rosbags/profiles/wire_minimum.hpp:261-264 | Range: 33 bytes in ROS1 and 34 in CDR, which has a variance field more |
| `Profiles.CameraInfoRow` | include/rosbags/profiles/wire_minimum.hpp:177-180 | CameraInfo: 297 bytes in ROS1, 295 in CDR |
| `Profiles.JointStateRow` | include/rosbags/profiles/wire_minimum.hpp:205-208 | JointState: 32 bytes in ROS1, 29 in CDR |
| `Profiles.PointCloud2Row` | include/rosbags/profiles/wire_minimum.hpp:257-260 | PointCloud2: 42 bytes in ROS1, 39 in CDR |
| `Profiles.SmallRows` | include/rosbags/profiles/wire_minimum.hpp:281-284 | Byte takes one byte on the wire, and a type that recurs through a sequence has a finite bound |
| `Profiles.BuiltinsShareFields` | src/profiles.cpp:5-57 | the modelled built-in types differ between the formats in scalar fields only |
| `Profiles.BuiltinSchemaIsShared` | src/profiles.cpp:5-57 | so the schema of the modelled built-in types shares its thresholds between the formats |
| `StableOrder.StableSortIsUnique` | src/rosbag1.cpp:364 | being sorted and keeping ties in order determines the result |
| `StableOrder.StableSortIsStable` | src/rosbag1.cpp:364 | the reference sort is sorted and keeps ties in order |
| `StableOrder.FilteredSortPlaces` | src/rosbags.cpp:108-115 | without any sort: a filtered stable sort delivers every passing item and no other, each once, in ascending order of timestamp and then of its place in the input |
| `StableOrder.FilterThenSort` | src/internal.hpp:111-127 | filtering before or after a stable sort makes no difference |
| `StableOrder.MapThenSort` | src/rosbags.cpp:136-145 | changing what messages carry, such as their connection, does not disturb their order |
| `KWayMerge.MergeIsStableSort` | src/rosbags.cpp:129-134 | merging sorted streams by (timestamp, source) is stably sorting them laid end to end: nothing lost, nothing repeated |
| `KWayMerge.MergeOfMerges` | src/rosbags.cpp:70-151 | merging merges is merging everything in one go |
| `FailingMerge.FailureCutsMerge` | src/rosbags.cpp:102-116 | delivering until a failing stream is exhausted is the whole merge up to the cut |
| `FailingMerge.CutIsFirstLast` | src/rosbags.cpp:102-116 | the cut is the least place behind the last message of a failing stream, and the end if no stream fails |
| `FailingMerge.FailureGivesPrefix` | src/rosbags.cpp:102-116 | what is delivered before a failure is a prefix of the merge of what the streams would have delivered |
| `DelayedMerge.TopIsLeast` | src/rosbags.cpp:108-110 | once every refill is done, the top of the queue is the least front of all sources |
| `DelayedMerge.NothingQueued` | src/rosbags.cpp:108 | an empty queue after the refill means that every source was read to a clean end |
| `DelayedMerge.DueIsPending` | src/rosbags.cpp:102-116 | between two calls a failure is due exactly if the source waiting to be refilled is about to fail |
| `DelayedMerge.MergeCursor.Start` | src/sqlite3.cpp:539-547 | every source is polled until it has a head or has ended; fails exactly if some source fails before its first message; otherwise the streams still to come are unchanged |
| `DelayedMerge.MergeCursor.Pull` | src/sqlite3.cpp:593-611 | polls only a source that has not reported its end, skips what is filtered out, and queues exactly the head it finds |
| `DelayedMerge.MergeCursor.Next` | src/rosbags.cpp:102-116 | delivers the front of the merge of what is left; fails exactly when the source delivered last fails before yielding another message, so a failure behind a message shows only after that message |
| `DelayedMerge.MergeCursor.Refill` | src/rosbags.cpp:104-107 | the delayed refill changes no stream and leaves every headless source ended |
| `DelayedMerge.MergeCursor.PopLeast` | src/rosbags.cpp:108-115 | takes the front off exactly one stream and keeps the queue in step with the heads |
| `DelayedMerge.MergeCursor.Drain` | src/rosbags.cpp:224-229 | a whole run delivers the merge if every source is clean, and otherwise the merge cut just behind the last message of the source that fails first: no less and no more |
| `Filters.CheckTopic` | src/internal.hpp:111-123 | a connection passes exactly if no topic is asked for or some topic of the filter agrees with its own, and no id is asked for or its own is |
| `Filters.DeliveredPlaces` | src/internal.hpp:111-127 | what every reading of a filtered stable sort comes to, item by item: the messages on a connection that is asked for, from the start time on but before the stop time, each once, by timestamp and then place |
| `FilteredMerge.Contributes` | src/sqlite3.cpp:593-604 | a child that filters for itself under its own numbers contributes what passes of its run, renamed: all that passes of its contents, or a prefix of that if it fails |
| `FilteredMerge.MergeOfFiltered` | src/sqlite3.cpp:549-571 | merging filtered streams is filtering one stable sort of everything |
| `FilteredMerge.MergeOfRuns` | src/sqlite3.cpp:549-571 | merging runs of parts of a whole gives the filtered stable sort of the whole, cut short only by a failure |
| `Directory.FileAgrees` | src/sqlite3.cpp:539-604 | a file asked without ids lets through at least what the directory wants, and the directory then keeps just that |
| `Directory.ReadDirectory` | src/sqlite3.cpp:537-618 | a directory delivers its files' messages, stably sorted, ties in file order, restricted by topic, id and time; where the bag is compressed by message, each delivered message is what the decompressor makes of the stored one; a failing file or message cuts that exactly where it is met |
| `Directory.DeliveredStems` | src/sqlite3.cpp:549-571 | every delivered message stems from a stored message of some file: same time, the mapped connection, and its bytes, decoded if the bag is compressed by message |
| `Directory.RunIsHonest` | src/sqlite3.cpp:549-618 | under every filter a directory's run is what it holds sorted and filtered, cut short only by a failure |
| `AnyReader.GlobalIdIsModular` | src/rosbags.cpp:266-270 | the 32-bit counter gives position k the id k + 1 modulo 2^32 |
| `AnyReader.GlobalIdsAreDistinct` | src/rosbags.cpp:266-273 | ids are 1 to N, and distinct exactly as long as there are no more than 2^32 connections |
| `AnyReader.NumberConnections` | src/rosbags.cpp:265-273 | the numbering loop lists every reader's connections in order under those ids |
| `AnyReader.LocalIdIffGlobal` | src/rosbags.cpp:85-92 | a local id is asked for exactly if the global id of its connection was |
| `AnyReader.LocalIsGlobal` | src/rosbags.cpp:83-92 | a reader's connection passes the translated filter exactly if its global copy passes the original one |
| `AnyReader.ChooseSources` | src/rosbags.cpp:74-99 | cursors are made for the readers that own a requested id, each with the position of its first connection |
| `AnyReader.ChosenIsEnough` | src/rosbags.cpp:93-97 | leaving out readers without a requested id changes nothing in the filtered whole, ties included |
| `AnyReader.ReadAll` | src/rosbags.cpp:70-151 | several readers together deliver all they hold, stably sorted, ties in reader order, restricted by topic, global id and time; a failing reader cuts that just behind its last message |
| `AnyReader.RunIsHonest` | src/rosbags.cpp:70-151 | under every filter the run of all readers is what they hold sorted and filtered, cut short only by a failure |
| `Nested.NestedIsFlat` | src/rosbags.cpp:70-151 | sorting sorted directories is one stable sort of all their files' messages |
| `Nested.ReadInner` | src/sqlite3.cpp:537-618 | the directory's cursor under the translated filter delivers just the run the outer merge counts on, failures included |
| `Nested.ReadDirectories` | src/rosbags.cpp:70-151 | `AnyReader` over directories delivers all files' messages by (timestamp, reader, file, position), each once and decoded from a stored message; a failing file cuts its directory's run and that cuts the whole, exactly where each is met |
| `Nested.DeliveredStems` | src/rosbags.cpp:136-145 | whatever is delivered is a message stored in some file of some directory, decoded as that directory decodes, on the connection that directory's share of the global list starts at plus its own number |
| `Topics.NormalizeTopic` | src/rosbags.cpp:431-445 | the two loops compute the leading slash and the non-empty segments joined by single slashes |
| `Topics.NormalIsIdempotent` | src/rosbags.cpp:431-445 | normalising again changes nothing |
| `Topics.NormalIsCanonical` | src/rosbags.cpp:431-445 | two names have one normal form exactly if they agree on leading slash and non-empty segments |
| `Topics.NormalShape` | src/rosbags.cpp:431-445 | a normal form has no double slash, and a trailing one only if it is the root |
| `Topics.NormalIsUnique` | src/rosbags.cpp:431-445 | the normal form is the only name without a double or trailing slash that has the topic's leading slash and segments |
| `Topics.SegmentLaws` | src/rosbags.cpp:431-445 | slashes separate segments, empty ones vanish, and what has no slash is one segment |
| `Topics.ResolvedSegments` | src/rosbags.cpp:459-461 | resolving a relative name puts the namespace's segments in front of its own |
| `Topics.KeysAgree` | src/rosbags.cpp:448-465 | comparing keys is comparing leading slash and segments, segments alone, or segments with the namespace in front of the relative side |
| `Topics.TopicsMatch` | src/rosbags.cpp:448-465 | a relative namespace is refused if it is needed; otherwise names match exactly if they agree under the policy, which is equality of keys and thus an equivalence |
| `Windows.WindowIsFilter` | src/rosbag1.cpp:447-450 | starting at the lower bound and stopping at the first late entry gives exactly the entries inside the window |
| `Records.LaterWins` | src/rosbag1.cpp:53-54 | of fields with one name the last one counts |
| `Records.ReadFields` | src/rosbag1.cpp:41-58 | the parsing loop yields the dictionary of the header's fields, or the first malformation |
| `Records.ReadRecord` | src/rosbag1.cpp:60-74 | header, body and end of the record at the cursor, with the header limit tested before the header is parsed |
| `Records.NumbersAreFields` | src/rosbag1.cpp:23-32 | a number is a field of exactly one or four bytes, the least first |
| `Records.TimesAreFields` | src/rosbag1.cpp:76-80 | a time is a field of eight bytes: seconds times 1,000,000,000 plus nanoseconds, which must be fewer than that |
| `Records.RecordReadsBack` | src/rosbag1.cpp:60-74 | a written record at its own offset in any file reads back to its dictionary and body and the cursor stops at its end, at least 8 bytes on; the header limit decides exactly by the header's length |
| `Records.FieldsWereWritten` | src/rosbag1.cpp:41-58 | an accepted header is, byte for byte, the writing of the fields it yields |
| `Records.RecordWasWritten` | src/rosbag1.cpp:60-74 | an accepted record is, byte for byte, the writing of the header it yields, within the limit, and of its body |
| `Records.RecordLayout` | src/rosbag1.cpp:41-74 | a record is a header and a body with four-byte lengths in front, a header field is length, name, `=` and data |
| `Ros1Cursor.ReadMessage` | src/rosbag1.cpp:471-486 | skipping connection records terminates, and the message found is the one the entry's checks allow |
| `Ros1Cursor.TopIsLeast` | src/rosbag1.cpp:494-510 | the top of the queue by (timestamp, rank, position) is the least front of the selected indexes |
| `Ros1Cursor.Cursor.constructor` | src/rosbag1.cpp:439-455 | each selected connection has what its index holds inside the window still to deliver |
| `Ros1Cursor.Cursor.Next` | src/rosbag1.cpp:457-491 | delivers the fetched front of the merge of what is left, as if its chunk had been loaded for it alone; fails exactly at an entry that fails its checks |
| `Ros1Cursor.Cursor.UseChunk` | src/rosbag1.cpp:462-469 | the cache holds what loading the chunk again would give |
| `Ros1Cursor.Cursor.PopTop` | src/rosbag1.cpp:460-461 | takes exactly the least entry off what is left |
| `Ros1Cursor.Cursor.Advance` | src/rosbag1.cpp:485-489 | the next entry of the rank is queued unless the index or the window ends |
| `Ros1Message.MessageIsFound` | src/rosbag1.cpp:471-484 | a record whose header says so, in whatever order and with whatever else, is found wherever it stands in a chunk exactly under its own time and connection, and yields its own body unless that exceeds the limit |
| `Ros1Message.HeaderInBytes` | src/rosbag1.cpp:471-486 | the bytes of a message header: opcode 2, the connection id, seconds and nanoseconds |
| `Ros1Message.ChecksAreExact` | src/rosbag1.cpp:471-484 | an entry's record is accepted exactly if its header has opcode 2, the entry's connection id and the entry's time and its body is within the limit |
| `Ros1Message.FetchIsExact` | src/rosbag1.cpp:462-486 | an entry delivers the message its checks accept in its own chunk at its own offset, under its own time and connection, and fails if its chunk cannot be loaded |
| `Ros1Message.HeaderSays` | src/rosbag1.cpp:471-484 | the usual header of a message record can be written and says what it must |
| `Ros1Message.ConnectionIsSkipped` | src/rosbag1.cpp:474-475 | a connection record in front of what an entry leads to makes no difference |
| `Ros1Reading.PlanIsFilteredSort` | src/rosbag1.cpp:437-515 | the visited entries are those of the selected connections inside the window, by (timestamp, connection, file position) |
| `Ros1Reading.ReadBag` | src/rosbag1.cpp:437-515 | a whole reading delivers exactly the messages of those entries, each chunk as if loaded afresh, up to the first that fails |
| `Ros1Reading.FetchThenFilter` | src/rosbag1.cpp:443-450 | on a bag whose entries pass the checks, filtering entries is filtering messages |
| `Spool.AnySortIsStable` | src/mcap.cpp:208-216 | because the separator byte keeps offsets distinct, any sort by (timestamp, offset) is the stable sort of file order |
| `Spool.SortByTimeExists` | src/mcap.cpp:213-216 | so can sorting by (timestamp, offset) |
| `Spool.Growth` | src/mcap.cpp:201-205 | the capacity doubles, from one on, and never beyond the maximum |
| `Spool.OptionsOf` | src/mcap.cpp:189 | the entry maximum is the largest number of entries whose storage fits the index budget |
| `Spool.FitsMeans` | src/mcap.cpp:189-211 | messages fit exactly if each is within the message limit and on a known channel, all bytes with one separator a message are within the temporary budget, and 32 bytes a message within the index budget |
| `Spool.Spool.Append` | src/mcap.cpp:192-211 | a message is spooled exactly if it is within its limits; file and index grow by it, within their budgets |
| `Spool.Spool.Build` | src/mcap.cpp:179-217 | succeeds exactly if all messages fit, the scan was clean and the count agrees; the index is then the stable sort of the file order, whatever the sort |
| `SpoolCursor.EntryAt` | src/mcap.cpp:206-211 | the bytes an entry points at are the scanned message's own, empty ones included |
| `SpoolCursor.Cursor.constructor` | src/mcap.cpp:237-249 | what the cursor has to deliver is what passes the filter, reversed windows and empty spools included |
| `SpoolCursor.Cursor.Next` | src/mcap.cpp:270-287 | delivers the next passing message with its bytes, and ends exactly when none is left |
| `SpoolCursor.ReadFallback` | src/mcap.cpp:179-287 | the fallback from scan to reading delivers the scanned messages stably sorted, restricted by topic, id and time, with their original bytes |
| `Container.FrameReadsBack` | src/mcap.cpp:29-35 | a frame at its offset reads back to its record |
| `Container.InspectContainer` | src/mcap.cpp:18-73 | a file passes exactly if records tile it that are each within their limits and together within the index budget; the shape counts those records |
| `Container.VerdictMeans` | src/mcap.cpp:37-70 | which records pass on their own, by opcode, length and the bytes of their times and sizes |
| `Container.TalliesMean` | src/mcap.cpp:37-70 | the index budget is spent on the lengths of records of opcodes 7, 8, 10, 11, 13 and 14 and no others; the shape counts opcode 6 and looks for opcode 5 |
| `Container.TilesAreLaid` | src/mcap.cpp:22-35 | records that tile a file lie in it from byte 8 to the last eight bytes: opcode, length in eight bytes, least first, and content, each where the one before ends |
| `Container.LaidTiles` | src/mcap.cpp:22-35 | and whatever lies in a file like that tiles it |
| `Container.MessagePasses` | src/mcap.cpp:48-57 | the message record as it is laid out passes exactly if its data is small enough and its log time is not the largest 64-bit number; otherwise which error it raises |
| `Container.ChunkPasses` | src/mcap.cpp:37-47 | the same for a chunk record: the minimal length, both size limits, then the end time, in the order of the code |
| `Sqlite.MakeQuery` | src/sqlite3.cpp:287-317 | the signed query accepts exactly the rows the unsigned filter passes, bounds beyond INT64_MAX and reversed windows included |
| `Sqlite.SignedIs` | src/sqlite3.cpp:287-317 | a bound parameter is the signed number with the same 64 bits |
| `Sqlite.StoredPlaces` | src/sqlite3.cpp:285-341 | the stored messages row by row: exactly those whose topic id some connection has, in order, with their bytes and that connection |
| `Sqlite.ReadTable` | src/sqlite3.cpp:285-341 | the cursor delivers the stored messages by (timestamp, id) restricted by topic, id and time, up to the first that is too large, where it fails |
| `Sqlite.UnclampedStopCutsAll` | src/sqlite3.cpp:292 | bound as it is, a stop beyond INT64_MAX would be negative and cut everything: hence the clamping |
| `Backends.ReadSqliteFile` | src/sqlite3.cpp:285-341 | a SQLite file meets what the directory merge requires of a child, and its reading is the run the merge is given, failing tables included |
| `Backends.ReadMcapFile` | src/mcap.cpp:235-287 | so does an MCAP file read through the fallback, which delivers nothing if its spool cannot be built |
| `Backends.ReadRos1` | src/rosbag1.cpp:437-515 | any ROS1 bag is a reader as `AnyReader` requires it, under every filter, with entries that fail their checks as its failures |
| `Backends.OpenedIndex` | src/rosbag1.cpp:354-364 | the indexes the cursor merges are those `open` built, and no entry of theirs names a missing chunk |
| `Backends.OpenAndRead` | src/rosbag1.cpp:247-515 | from opening to the last message a consistent bag delivers exactly the messages its own index entries stand for, as the filter asks, by (timestamp, connection, file position) |
| `Ros1Written.WrittenIsConsistent` | src/rosbag1.cpp:289-362 | a bag as written, its counts and index entries taken from its chunks, is consistent exactly if its ids differ and its messages fit the file and the index budget |
| `Ros1Written.WrittenReadsBack` | src/rosbag1.cpp:437-515 | every entry of a written bag leads to its own message, and every filter delivers exactly the messages that pass, sorted by timestamp, without failure |
| `Ros1Written.WriteAndRead` | src/rosbag1.cpp:247-515 | from written chunks through opening to the last message: what was written and passes the filter comes back, each message at its seconds times 1,000,000,000 plus nanoseconds; opened exactly under the stated numeric bounds |
| `Backends.DirectoryOfTables` | src/sqlite3.cpp:537-618 | a directory reading is one stable sort of the messages as the files store them |
| `Definitions.CanonicalIsStable` | src/codegen.cpp:94-100 | a canonical name is its own canonical name in every package |
| `Definitions.CanonicalForms` | src/codegen.cpp:94-100 | a bare name belongs to its own package, a name with a package to that one, and `Header` to std_msgs |
| `Definitions.PrimitivesAreNamed` | src/codegen.cpp:76-93 | the type names that need no definition, literally |
| `TypeSuffix.ExtentValue` | src/codegen.cpp:125-136 | an extent is accepted exactly if it is a decimal number that fits `size_t`; no step of the loop overflows |
| `TypeSuffix.ParseTypeSuffix` | src/codegen.cpp:124-159 | filling the field step by step gives the specified parse of the text |
| `TypeSuffix.DecimalReadsBack` | src/codegen.cpp:125-136 | the decimal digits of every number denote it |
| `TypeSuffix.TypesReadBack` | src/codegen.cpp:124-159 | every field type, whatever its container and bounds and in either notation of a string bound, prints to a text that parses back to it, `time` and `duration` under their full names |
| `TypeSuffix.AcceptedIsSpelled` | src/codegen.cpp:124-159 | exactly the texts that spell a type are accepted, each as the type it spells: a base with or without a string bound and one of the four suffixes, numbers with leading zeros allowed, positive where a bound, blanks only inside angle brackets |
| `TypeSuffix.NamesAreKept` | src/codegen.cpp:157-158 | a plain name is kept with any suffix, except that `time` and `duration` stand for the types of builtin_interfaces |
| `Collection.SameDefinition` | src/codegen.cpp:286-297 | the field-by-field comparison decides equality of definitions of one name |
| `Collection.Deduplicate` | src/codegen.cpp:285-306 | a conflict is raised exactly if two inputs share a name but differ; otherwise each definition is kept once, in name order |
| `Collection.SortByNameExists` | src/codegen.cpp:285 | sorting by canonical name can be done, so what is required of the sort can be met |
| `Collection.OrderIndependent` | src/codegen.cpp:285-306 | the set of definitions determines the result: the order of the inputs does not matter |
| `Collection.CheckFields` | src/codegen.cpp:312-325 | a definition passes exactly if its sanitised field names differ and every type resolves |
| `Collection.ResolutionIs` | src/codegen.cpp:318-323 | a field resolves exactly if its type is a scalar or string by name, a time or duration, a built-in type, or defined |
| `Ordering.Visitor.Visit` | src/codegen.cpp:329-340 | terminates, and either orders everything reachable or has met a cycle |
| `Ordering.OrderedIsAcyclic` | src/codegen.cpp:326-342 | an order with dependencies first exists only if the by-value graph has no cycle |
| `Ordering.Order` | src/codegen.cpp:326-342 | succeeds exactly on acyclic graphs, with every definition once and after all it holds by value |
| `Generation.EdgeIsHolds` | src/codegen.cpp:333-337 | the graph's edges are exactly the by-value references |
| `Generation.HoldsMeans` | src/codegen.cpp:333-337 | a definition holds another by value exactly through a field that is no sequence and whose type, no scalar or string by name, resolves to it |
| `Generation.Collect` | src/codegen.cpp:285-342 | each error is raised exactly when it should be; on success every input definition is there once, after everything it holds by value |
| `Generation.CollectPrimitives` | src/codegen.cpp:285-342 | definitions of scalars and strings alone, by any of their names, are always collected unless two of one name differ |
| `Emitted.CollectedIsInOrder` | src/codegen.cpp:424-437 | the collected order is the order the constants need: a generated type holds by value only types emitted before it |
| `Emitted.SoundIsKnown` | src/codegen.cpp:312-325 | what collection checks of every field type is what the generated schema needs of it |
| `Emitted.ScalarsAreRead` | src/codegen.cpp:351-357 | which scalar a generated reader reads for each type name, and strings with their declared bound |
| `Emitted.NamesAreFound` | src/codegen.cpp:107-123 | every other name stands for the built-in type of its resolved name, or else for the collected definition of that name |
| `Emitted.GeneratedReads` | src/codegen.cpp:363-395 | a generated reader reads the declared fields one for one and in order, each in its container with the declared length or bound |
| `Emitted.GeneratedMinimum` | src/codegen.cpp:424-437 | so a generated `WireMinimum` is the sum of its fields' final constants |
| `Emitted.GeneratedSchemaIsShared` | src/codegen.cpp:359-395 | generated types read the same fields from both formats, so a generated schema shares its thresholds between them |
| `Ros1Index.PrefixEntries` | src/rosbag1.cpp:351-353 | the entries of a connection only grow from record to record |
| `Ros1Index.ConsistencyIs` | src/rosbag1.cpp:289-323 | when a bag is consistent, in numbers and without the order of any check: distinct ids, no more pairs a chunk than connections, every pair's id known, 12 bytes of file a message, 88 bytes of index a chunk and 16 a message |
| `Ros1Index.RecordsFitIs` | src/rosbag1.cpp:325-362 | and of its index records: each names a declared connection and has nanoseconds below 1,000,000,000 only, and each connection gets as many entries as declared |
| `Ros1Open.CountsAreConserved` | src/rosbag1.cpp:365-373 | the declared counts of all connections add up to the total declared |
| `Ros1Open.EntriesNameChunks` | src/rosbag1.cpp:354-359 | every index entry names a chunk of the bag |
| `Ros1Open.Builder.Declare` | src/rosbag1.cpp:311-320 | a pair is refused exactly if no consistent bag declares it after the ones before; no check underflows and the budget is kept |
| `Ros1Open.Builder.DeclareAll` | src/rosbag1.cpp:297-323 | all chunk infos pass exactly if they fit the connections, the file and the index budget |
| `Ros1Open.Builder.StampAll` | src/rosbag1.cpp:354-359 | the entries of an index record are accepted exactly if the nanoseconds of each are fewer than 1,000,000,000, and each is stamped with its seconds times that plus its nanoseconds |
| `Ros1Open.Builder.Record` | src/rosbag1.cpp:339-359 | an index record is refused exactly if no consistent bag contains it after the ones before |
| `Ros1Open.Builder.Finish` | src/rosbag1.cpp:362-364 | passes exactly if every connection got the entries declared for it; then each index is their stable sort |
| `Ros1Open.CheckHeader` | src/rosbag1.cpp:263-270 | the header's counts pass exactly if the file can hold them and the budget the chunks |
| `Ros1Open.Open` | src/rosbag1.cpp:247-373 | a bag opens exactly if it is consistent; then each index is the stable sort of the connection's entries, as many as declared, and the message count is the total declared |
| `Decompression.StreamZstd` | src/sqlite3.cpp:49-84 | terminates for every decompressor that only moves forward; delivers exactly the outputs of a run of answers that each take input or give output until all input is taken and the last ends a frame, any number of frames before it, if they fit the limit; otherwise the failure of the answer that ends the run |
| `Decompression.StreamRuns` | src/sqlite3.cpp:49-84 | so says the decompressor's step alone, both ways: every run of answers is decoded to its outputs, and whatever is decoded or fails has such a run |
| `Decompression.WholeFileDecoded` | src/sqlite3.cpp:57-79 | on success every input byte was handed over once and in order, the last call ended a frame, and the output is what all calls gave, concatenated frames included |
| `Decompression.LimitIsExact` | src/sqlite3.cpp:75 | what decodes under some limit decodes alike under another exactly if it fits it |
| `Decompression.DecompressLz4` | src/rosbag1.cpp:140-179 | terminates for every decompressor that only moves forward; delivers exactly the outputs of a run of answers that each take input or give output, of which the last alone ends a frame and takes the last of the input, if they are of the declared size and within the limit; otherwise the failure of the answer that ends the run, or of the size |
| `Decompression.FrameRuns` | src/rosbag1.cpp:140-179 | so says the decompressor's step alone, both ways, for chunks |
| `Decompression.FrameIsStream` | src/rosbag1.cpp:140-179 | a chunk that decodes is one the streaming loop would decode alike, in a single frame |
| `Decompression.TemporaryFiles.Decompress` | src/sqlite3.cpp:505-521 | a file that decodes at all is kept exactly if it fits the limit per file and what is left of the total; all kept files together stay within the total |
| `Decompression.MessageBuffer.Append` | src/sqlite3.cpp:92-102 | the output buffer's capacity changes only if it has to and then doubles, up to the limit, or to what is required if that is more |

## Left out

- Directory.ReadDirectory: the map from file connections to directory connections is given; how `open` builds it and compares types, digests and definitions is not modelled. What unpacks a compressed message is a parameter.
- Formats.FormatsShareThresholds: covers schemas whose types have the same fields in both formats, scalar ones apart: generated types always do, and so do the modelled built-in types.
- Ros1Written.WriteAndRead: index entries point at message records themselves; entries that point at connection records in front of them are covered one record at a time by `Ros1Message.ConnectionIsSkipped`.
- Ros1Open.Open: works on decoded CHUNK_INFO and IDXDATA records; their headers are parsed as in `Records`, and the tests of opcode, version and body length of each record are not repeated.
- Sqlite.ReadTable: schema detection and metadata are not modelled; rows have the non-negative timestamps that opening checks for.
- Container.InspectContainer: reading the file in pieces and the read errors of the stream are not modelled.
- Ordering.Order: the graph of by-value references is computed before the search rather than field by field inside it.
- Bitwise `|` and shifts in the integer loaders appear as positional arithmetic on bytes.
- The indexed MCAP path: its order is the SDK's promise, not this code's.
- The internals of SQLite, YAML, LZ4, BZip2, zstd and the MCAP SDK.
- The bz2 loop of ROS1 chunks: unlike the LZ4 loop it goes on calling when no input is left, appends before it looks at the result code, and reports truncation only at a call without progress.
- Files, streams, seeking and temporary files: a file is a byte sequence, a spool an append-only one.
- The characters of generated C++ code, the parsing of `.msg` and `.idl` files around the field types, and the registry.
- Error wording and error contexts, type registry, shared-pointer lifetimes, command-line tools, the state of a cursor after it has thrown.
- `AnyReader` metadata, the refusal to mix ROS1 and ROS2 inputs, and closing.
- The full catalogue of built-in types: one theorem for all schemas and the instances in `Profiles` stand for them.
- Re-encoding a payload to identical bytes, which is not intended: readers accept any padding and any non-zero boolean.
