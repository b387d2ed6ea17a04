# DataSpinner transport: a verified model

DataSpinner carries market data from a publisher to its subscribers. This project models the path of
a message in Dafny and proves what that path keeps. It follows the order in which data travels.

| file | models |
|---|---|
| Words.dfy | machine integers, their memory images on a little-endian host, the byte-order conversions |
| Messages.dfy | the twelve message types as values, the size constants |
| Codec.dfy, RoundTrip.dfy, Truncation.dfy | the wire format as a layout of writes, the parsers, every round trip, encodings cut short |
| Archive.dfy | `BuffMsgArchive` over `SingleRecordBuffer`: a class over a 2048-byte array with its cursors, flag and operators |
| Lengths.dfy | the separately written `calc_len` functions, in 16-bit arithmetic |
| Frames.dfy | what one send puts into its archive, also when it does not fit |
| SocketQueue.dfy | `TcpSocketQueue` over a non-blocking socket: partial writes, cache, throttling |
| Reader.dfy, UdpReader.dfy | the incremental TCP frame reader, the in-place UDP reader |
| EndToEnd.dfy | sender, socket and reader composed; session indexes and gaps |
| Stream.dfy | when a reader fails, on any byte stream |
| DeltaBuilder.dfy, Snapshots.dfy | the delta builder in front of the transport, the snapshots and reference data behind it |
| Pipeline.dfy | builder, connection and snapshot composed |
| Heartbeat.dfy, Registry.dfy, UdpPublisher.dfy, TcpDispatcher.dfy | the subscription registries with heartbeat eviction |

## How it is modelled

Objects that the program updates in place are classes with the same fields; a value the class stands
for is given by its `View`, `State` or `Unread` function. Each method is tied to a specification
function on values, and the theorems are about those functions, so they hold of the methods.

What the program cannot choose is a parameter, and every theorem is for all of its values:

- the socket is a script of answers (`Outcome`): closed, would block, failed, or some number of bytes
  taken; a script that is used up blocks;
- the delta publisher is a script of booleans, true once it is used up;
- the order in which a hash map is walked is a sequence of turns (`Visit`), each with its receiver,
  whether its send is refused, and what the clock shows at its check;
- what an uninitialised archive buffer holds before a datagram lands in it is an argument.

Strings are their bytes, doubles their 64-bit patterns. The host is little-endian: there the header
word goes out with the halves of the 64-bit value in place, which `Words.Network64` states.

## The main results

1. `EndToEnd.Delivery`: for every run of sends of fitting messages, every socket and every way in
   which any part of the wire bytes arrives, the reader does not fail and has delivered, equal and in
   order, the first k of the messages that were not dropped by throttling; once the queue has drained
   and all has arrived, all of them. `EndToEnd.GapAccounting` adds that the logged session gaps count
   exactly the dropped sends.
2. `SocketQueues.StreamIntegrity`: in every reachable state, wire bytes followed by unsent queue bytes
   are the kept records joined in order, if and only if no record that has an offset is sent in part
   again; `SocketQueues.AsWrittenDrainsIff`: exactly when a drain ends (see below).
3. `Readers.ChunkIndependence`: every cut of a stream into arrivals has the outcome of a single
   arrival, if and only if no frame is delivered behind an ignored short frame (see below).
   `Streams.ReadExact` says for any stream which messages are delivered and whether the reader fails.
   `Readers.LongFramesAnyCut` has a condition on the headers alone, which frames of fitting messages meet.
4. `RoundTrip.MsgRoundTrip`, `Truncations.TruncatedRefused`, `Lengths.CalcLen`, `Frames.RecordOfFitting`,
   `Frames.FramedIff`: for every message type an encoding decodes to its message, no proper prefix of it
   decodes at all, and codec and length functions agree.
5. `DeltaBuilders.Conservation`, `DeltaBuilders.AllAccepted`, `DeltaBuilders.BuilderMerge`,
   `DeltaBuilders.Packing`: the builder loses and reorders nothing under publisher failures and refuses
   nothing of its own accord, merging rebuilds the updates, and deltas are packed tightly. `Pipelines.UpdatesArrive` composes this with 1.
6. `UdpPublishers.RegistryRun`, `UdpPublishers.MemberIff`, `TcpDispatchers.DispatcherRun`,
   `TcpDispatchers.SubscribedIff`, `TcpDispatchers.OpenIff`, `TcpDispatchers.HandedIff`: in every
   reachable state each registry is what the life of each receiver, told from the events alone, says it
   is; who is in it, what it is subscribed to, whether it is open and who is handed a delta are decided
   by conditions on the events. `UdpPublishers.SilentIsEvicted`, `UdpPublishers.InTimeStays`,
   `TcpDispatchers.OnlySubscribed` and `TcpDispatchers.NoneAfterClose` are safety over whole runs.

## Where the code falls short of its intent

- src/socket_buffer.cpp:186 stores the size of the last partial write as the new offset, although that
  size is relative to the old offset. The model keeps the code (`AsWritten`) beside the rule that
  resuming a record takes (`Accumulating`), with which integrity is unconditional. With the code as it
  is, integrity holds exactly while the guard of that line never finds an offset: `ResumedWhole` reads
  the cached records and the answers of the socket, and says that no record that has an offset is sent
  in part again. `RulesAgree` states this for a drain, `CallsAgree` for a call, and `RunsAgree` and
  `StreamIntegrity` for a run, where `RunResumesWhole` asks it of every call. `ByteSentTwice` is a run
  of two successful sends that puts a byte on the wire twice.
- For the same reason a drain need not end. Over a socket that keeps taking bytes, the front record
  leaves the cache exactly when two consecutive numbers, of its offset and the sizes that the socket
  takes, add up to at least its length (`OneRecordDrainsIff`, and `AsWrittenDrainsIff` for a whole
  cache); otherwise the drain goes on for as long as it is answered. `AsWrittenNeverDrains` is the case
  of one byte at a time; `DrainBound` excludes it for the other rule. Any other answer ends a drain
  (`SendCacheKeeps`).
- src/tcp_connection.h:46-47 sends the archive without a look at its validity, and a refused write is
  not rolled back. A message with a payload below 2^16 bytes then goes out well framed exactly when it
  fits (`FramedIff`). A longer one can, as a different message: of all texts, those that do not fit are
  framed exactly when their length is a multiple of 2^16, and arrive empty (`LongTextArrivesEmpty`).
- src/archive.h:345-346 hands whatever index was read to `bitset::set`, which throws outside the
  bitset, and a failed read exchanges the bytes of the index before it (src/archive.h:78-87).
  `BitsThrowIff` says exactly which index lists throw, cut short ones included.
- src/tcp_connection.cpp:95 reuses one archive for all frames of a call and never sets its flag again.
  The frames that bring this to light are ignored ones shorter than their time stamp
  (`DeliversAfterShort`); `CutsDiffer` finds two arrivals that deliver more than one
  arrival does, and `OutcomeDependsOnCut` shows the streams concretely.
- `hton64` does not exchange the halves (src/util.h:49-56), so it is not network order throughout; it
  is still its own inverse (`Hton64Involution`).
- A clock behind the last heartbeat counts as a long silence, because the difference is taken on
  `size_t` (src/spinner_core/spinner_core_util.h:129); `RemovedIff` has the exact condition.

## Model

| member | source | states |
|---|---|---|
| Words.Hton64Involution | src/util.h:49-65 | ntoh64 undoes hton64 for every 64-bit value, although the halves keep their places |
| Words.Network16 | src/archive.h:77-87 | the memory image of htons(v) is v most significant byte first, and ntohs reads it back |
| Words.Network32 | src/archive.h:88-109 | the memory image of htonl(v) is v most significant byte first, and ntohl reads it back |
| Words.Network64 | src/util.h:49-65 | the image of hton64(v) is the low half and then the high half, each in network order; ntoh64 reads it back |
| Words.WireDigits | src/util.h:49-65 | the bytes sent for 32 bits are its digits to base 256, most significant first; 64 bits go out low half first |
| Codec.HeaderOverlay | src/util.h:19-31 | the four header fields survive the overlay by one 64-bit word |
| Codec.HeaderRoundTrip | src/tcp_connection.cpp:104-107 | the header a sender stores is the header the reader sees |
| RoundTrip.I32RoundTrip | src/archive.h:88-98 | a signed 32-bit value comes back from its encoding, whatever follows it |
| RoundTrip.StringRoundTrip | src/archive.cpp:6-33 | a string shorter than 2^16 comes back from its encoding, whatever follows it |
| RoundTrip.VecRoundTrip | src/archive.h:147-176 | a vector of up to 2^16 - 1 elements that each come back comes back into a new vector, and reading stops at its end |
| RoundTrip.MenuItemRoundTrip | src/archive.cpp:35-47 | a menu item comes back from its encoding, whatever follows it |
| RoundTrip.NumVecRoundTrip | src/archive.h:306-320 | a context and its number vector come back together |
| RoundTrip.UpdatesRoundTrip | src/archive.cpp:54-55 | indexes followed by values come back as the same pairs in the same order |
| RoundTrip.DeltaRoundTrip | src/archive.cpp:50-93 | a delta with all its entries and stamps comes back, and reading stops at its end |
| RoundTrip.FieldCount | src/archive.h:326-333 | the count written before the field indexes is the number of indexes written |
| RoundTrip.BitsRoundTrip | src/archive.h:323-349 | any set of the 1024 fields comes back from its ascending index list |
| RoundTrip.FieldsRoundTrip | src/archive.cpp:138-161 | values written in ascending field order come back at the fields they belong to |
| RoundTrip.RefRoundTrip | src/archive.cpp:95-167 | reference data over any three subsets of the fields comes back with the same fields set and the same value at each |
| RoundTrip.MsgRoundTrip | src/archive.cpp:50-270 | for every message type, parsing the encoding followed by anything gives the message back and stops exactly at its end |
| RoundTrip.WireFormat | src/archive.cpp:6-270 | which fields of each message type are sent, as which bytes and in which order |
| Truncations.MsgLocal | src/tcp_connection.cpp:275-394 | bytes behind what is decoded change neither the value nor what is left |
| Truncations.TruncatedRefused | src/socket_buffer.h:30-46 | of no message type does a proper prefix of an encoding decode |
| Archives.WriteConservation | src/socket_buffer.h:18-28 | after any writes the buffer holds what was not refused, its length accounts for every byte, and the flag is set exactly when nothing was refused |
| Archives.WriteFits | src/archive.h:12-19 | a valid archive stays valid exactly when everything fits in 2048 bytes, and then holds it all in order |
| Archives.Archive.constructor | src/socket_buffer.h:63-66 | a new archive is valid and empty, with its start offset at 0 |
| Archives.Archive.BufferWrite | src/archive.h:12-19 | one write appends all its bytes, or changes nothing and clears the flag when they do not fit |
| Archives.Archive.BufferRead | src/archive.h:21-30 | a read takes the next bytes after the start offset, or moves nothing and clears the flag when they run past the length or the buffer |
| Archives.Archive.StoreHeader | src/archive.h:33-43 | header word and time stamp are appended in wire order |
| Archives.Archive.StoreU8 | src/archive.h:67 | appends one byte |
| Archives.Archive.StoreU16 | src/archive.h:77 | appends 16 bits in wire order |
| Archives.Archive.StoreU32 | src/archive.h:99 | appends 32 bits in wire order |
| Archives.Archive.StoreU64 | src/archive.h:110 | appends 64 bits in wire order |
| Archives.Archive.StoreString | src/archive.cpp:6-13 | the length truncated to 16 bits and then all characters, either of which may be refused |
| Archives.Archive.StoreStrings | src/archive.h:147-157 | the element loop writes the layout of a string vector |
| Archives.Archive.StoreMenu | src/archive.cpp:241-245 | the element loop writes the layout of the menu |
| Archives.Archive.StoreDelta | src/archive.cpp:50-59 | the delta operator writes the layout of a delta, refused writes included |
| Archives.Archive.StoreBits | src/archive.h:323-335 | the loop over the bits writes the count and the ascending indexes of the set ones |
| Archives.Archive.StoreRef | src/archive.cpp:95-129 | the reference operator writes the layout of reference data, refused writes included |
| Archives.Archive.StoreNumVec | src/archive.h:306-312 | the number vectors write context, count and elements |
| Archives.Archive.StoreMsg | src/archive.cpp:169-260 | every message operator leaves the archive as its layout says, from any state of the archive |
| Archives.Archive.Fill | src/tcp_connection.cpp:136-141 | the frame bytes become what there is to read; the flag keeps its value |
| Archives.Archive.Receive | src/udp_connection.cpp:185-187 | with a start offset, what follows the header in the buffer becomes what there is to read, as far as the buffer reaches |
| Archives.Archive.LoadU16 | src/archive.h:78-87 | agrees with the parser, on success, value, remaining bytes and sticky failure |
| Archives.Archive.LoadU32 | src/archive.h:100-109 | agrees with the parser in the same sense |
| Archives.Archive.LoadU64 | src/archive.h:111-120 | agrees with the parser in the same sense |
| Archives.Archive.LoadI32 | src/archive.h:89-98 | agrees with the parser in the same sense |
| Archives.Archive.LoadString | src/archive.cpp:15-33 | agrees with the parser in the same sense |
| Archives.Archive.LoadStringVec | src/archive.h:159-176 | the push_back loop agrees with the vector parser |
| Archives.Archive.LoadDelta | src/archive.cpp:61-93 | agrees with the parser, bounds checks on the three sizes included |
| Archives.BitsThrowIff | src/archive.h:337-349 | an index list throws exactly when an index that is there lies outside the bitset, or the list is cut short behind an index whose exchanged bytes do |
| Archives.Archive.LoadIndex | src/archive.h:78-87 | agrees with the parser, and after a failed read exchanges the bytes of the index before |
| Archives.Archive.LoadBits | src/archive.h:337-349 | agrees with the parser, and throws exactly when the specified walk over the list does |
| Archives.Archive.LoadRef | src/archive.cpp:131-167 | the loops over the fields read back the set fields in ascending order |
| Archives.Archive.LoadMsg | src/tcp_connection.cpp:275-394 | for every message type the typed load succeeds exactly when the archive was valid and the parser accepts, with the parser's value and rest |
| Lengths.StrArchiveLen | src/spinner_core/spnr.h:61 | the size of what the string codec writes, modulo 2^16 |
| Lengths.StrArrArchiveLen | src/spinner_core/spnr.h:62-69 | the summing loop gives the encoded size of a string vector, modulo 2^16 |
| Lengths.NumArrArchiveLen | src/spinner_core/spnr.h:70-75 | the size of what the vector codec writes for elements of one width, modulo 2^16 |
| Lengths.MenuLen | src/spinner_core/records.cpp:100-109 | the loop gives the encoded size of the menu, modulo 2^16 |
| Lengths.DeltaLen | src/spinner_core/md_ref.cpp:99-107 | the encoded size of a delta, modulo 2^16 |
| Lengths.DeltaSize | src/archive.cpp:50-59 | the exact encoded size of a delta in terms of its symbol and entry counts |
| Lengths.RefLen | src/spinner_core/md_ref.cpp:62-78 | bitset counts and the loop over the string fields give the encoded size of reference data, modulo 2^16 |
| Lengths.NumVecLen | src/spinner_core/records.h:194-198 | the encoded size of each kind of number vector message, modulo 2^16 |
| Lengths.SessionLen | src/spinner_core/records.cpp:62-84 | the encoded size of login, login reply and command, modulo 2^16 |
| Lengths.CalcLen | src/spinner_core/records.cpp:16-135 | calc_len of every message type is the size of its encoding, modulo 2^16 |
| Frames.RecordOfFitting | src/tcp_connection.h:36-46 | the archive is valid exactly when 16 plus the payload size is at most 2048; it then holds header, stamp and payload, and its length is 8 plus the announced length |
| Frames.FramedIff | src/tcp_connection.h:36-47 | with a payload below 2^16 bytes the record is as long as its header says exactly when the message fits; in general exactly when the bytes lost to refused writes are a multiple of 2^16 |
| Frames.LongTextArrivesEmpty | src/archive.cpp:6-13 | over texts of every length: well framed exactly when the text fits or its length is a multiple of 2^16, and then, not fitting, it goes out as the empty text |
| Frames.Encode | src/tcp_connection.h:36-46 | header from calc_len, stamp and message operator leave the archive in the state the theorems speak of |
| SocketQueues.SendCacheKeeps | src/socket_buffer.cpp:142-194 | draining keeps the invariant and every byte's place in the stream unless an offset is forgotten, and ends with an empty cache, a blocked socket or a failed one |
| SocketQueues.DrainBound | src/socket_buffer.cpp:146-193 | with accumulating offsets a drain makes at most one more send than the bytes it moves, whatever the socket answers |
| SocketQueues.AsWrittenDrainsIff | src/socket_buffer.cpp:146-193 | over a socket that keeps taking bytes, a drain as written empties the cache exactly when each record in turn finds two consecutive numbers that reach its length, and otherwise goes on for as long as it is answered |
| SocketQueues.OneRecordDrainsIff | src/socket_buffer.cpp:146-193 | for a single cached record: it leaves exactly when two consecutive numbers of its offset and the sizes taken add up to at least its length |
| SocketQueues.AsWrittenNeverDrains | src/socket_buffer.cpp:185-191 | the case of a socket taking one byte at a time, with the wire and the cache after any number of answers |
| SocketQueues.RulesAgree | src/socket_buffer.cpp:185-191 | a drain as written does what accumulating offsets do, and moves no byte in the stream, if and only if no record that has an offset is sent in part again |
| SocketQueues.CallsAgree | src/socket_buffer.cpp:23-91 | the same for one send_buffer call |
| SocketQueues.RunsAgree | src/socket_buffer.cpp:23-194 | the same for a whole run |
| SocketQueues.SendBufferKeeps | src/socket_buffer.cpp:23-91 | one call adds the record to the stream exactly when it is kept; a drop happens only under throttling with none of the record sent; only the socket makes a call fail, so the overflow failure is unreachable |
| SocketQueues.ThrottleHysteresis | src/socket_buffer.h:115-116 | a successful call drops its record exactly when it leaves throttling on; throttling starts one above 70% of the queue size and ends at or below 1% |
| SocketQueues.CallAsks | src/socket_buffer.cpp:23-194 | a call fails exactly if the last answer it used up says the connection is gone; it asks at least once, never again once the socket blocks, and ends on an answer that took bytes only with nothing but its own record cached |
| SocketQueues.StreamIntegrity | src/socket_buffer.cpp:23-194 | over every run and socket, the invariant holds, and wire plus unsent bytes are the kept records in order if and only if offsets accumulate or no call sends a record that has an offset in part again |
| SocketQueues.ByteSentTwice | src/socket_buffer.cpp:186 | a run of two sends in which every call succeeds and a byte goes out twice as the code is written; counting the offset up, the same answers send both records exactly |
| SocketQueues.WillingSocket | src/socket_buffer.cpp:51-90 | a socket that takes every record whole is sent each at once, and nothing is ever cached or dropped |
| SocketQueues.Socket.Send | src/socket_buffer.cpp:51-59 | the three ways in which send() answers, and what it has taken in each |
| SocketQueues.TcpSocketQueue.constructor | src/socket_buffer.cpp:8-11 | an empty cache, throttling off, session index 0 |
| SocketQueues.TcpSocketQueue.NextSessionIndex | src/socket_buffer.h:89 | the index is incremented on 32 bits and returned |
| SocketQueues.TcpSocketQueue.Add | src/socket_buffer.cpp:109-140 | throttle transitions, drop and push are those of the specification |
| SocketQueues.TcpSocketQueue.Advance | src/socket_buffer.cpp:169-191 | after a full write the front record is popped and throttling may end; after a partial one its offset is set by the rule |
| SocketQueues.TcpSocketQueue.Drain | src/socket_buffer.cpp:142-194 | the drain loop, on the live socket, is the specified drain |
| SocketQueues.TcpSocketQueue.SendNow | src/socket_buffer.cpp:51-90 | the write past an empty cache, caching what was not taken |
| SocketQueues.TcpSocketQueue.Send | src/socket_buffer.cpp:23-91 | the whole call is the specified one and keeps the invariant |
| Readers.StepAppend | src/tcp_connection.cpp:98-158 | bytes behind a whole frame change nothing about how it is handled |
| Readers.RoundsAppend | src/tcp_connection.cpp:98-158 | with a fresh archive per frame, reading more bytes later is reading them at once |
| Readers.StickyAgrees | src/tcp_connection.cpp:95 | reusing the archive makes no difference unless something is delivered after an ignored short frame |
| Readers.CutsDiffer | src/tcp_connection.cpp:95-161 | when something is, two arrivals deliver more than one arrival of the same bytes |
| Readers.AnyCut | src/tcp_connection.cpp:89-161 | every cut of a stream without such frames has the outcome of a single arrival |
| Readers.ChunkIndependence | src/tcp_connection.cpp:89-161 | all cuts of a stream deliver, fail and leave over the same, if and only if no frame is delivered after an ignored frame shorter than its stamp |
| Readers.LongFramesAnyCut | src/tcp_connection.cpp:104-161 | a stream whose headers all announce at least the eight bytes of the stamp has one outcome however it is cut |
| Readers.TcpReader.constructor | src/tcp_connection.h:82 | a reader that has seen nothing, with index 0 |
| Readers.TcpReader.ParseHeader | src/tcp_connection.cpp:104-107 | the header read in host order is the one the wire bytes encode |
| Readers.TcpReader.Gap | src/tcp_connection.cpp:121-128 | a 32-bit index difference other than 1 is noted unless the old index is 0, and the index is taken over |
| Readers.TcpReader.HandleFrame | src/tcp_connection.cpp:143-156 | stamp, skip of idle deltas, typed load and hand-over, with the flag the archive had before |
| Readers.TcpReader.ReadConnectionBuffer | src/tcp_connection.cpp:89-161 | the loop over the event buffer, with one archive for all frames, is the specified reader |
| UdpReaders.InPlaceIsStream | src/udp_connection.cpp:157-202 | reading a complete datagram in place at offset 8 delivers and refuses what the TCP reader does with the copied payload, whatever the buffer held before |
| UdpReaders.InPlaceDelivers | src/udp_connection.cpp:157-202 | complete or not, a datagram delivers exactly the message that the buffer then carries at its place, up to the end of the buffer |
| UdpReaders.UdpReader.ReadDatagram | src/udp_connection.cpp:157-202 | any datagram, also one shorter than its header claims, is read as the buffer then stands |
| Streams.RoundsExact | src/tcp_connection.cpp:98-158 | with a fresh archive per frame, the good frames of a stream are taken and delivered, and what follows them is waited with or refused |
| Streams.SplitStream | src/tcp_connection.cpp:98-158 | every byte stream is a sequence of good frames and a tail that is pending or wrong |
| Streams.ReadExact | src/tcp_connection.cpp:89-161 | however a stream arrives, exactly the messages of its good frames are delivered, and reading fails exactly if the tail is wrong: a wrong tag, a frame too long, or one that does not decode |
| Streams.FailsIff | src/tcp_connection.cpp:89-161 | a stream closes the connection exactly if it is no sequence of acceptable frames and a pending tail |
| Streams.WrongCloses | src/tcp_connection.cpp:104-135 | frames of fitting messages with anything wrong behind them are delivered, and the connection is closed |
| EndToEnd.ReadFrames | src/tcp_connection.cpp:98-158 | whole frames followed by part of the next are all taken, and the part is kept waiting |
| EndToEnd.ReadStream | src/tcp_connection.cpp:89-161 | any arrived part of the sent frames, however cut, is read as its whole frames without failure |
| EndToEnd.OutcomeDependsOnCut | src/tcp_connection.cpp:95-161 | a bare header of an unknown type before any good frame: arriving together they close the connection, arriving apart the frame is delivered |
| EndToEnd.Delivery | src/tcp_connection.h:33-52 | what is delivered is equal to and in the order of the first k kept messages, and all of them once the queue has drained and all has arrived |
| EndToEnd.KeptIncreasing | src/socket_buffer.h:89 | with fewer than 2^32 sends the session indexes of the kept frames strictly increase |
| EndToEnd.GapAccounting | src/tcp_connection.cpp:121-128 | the indexes missing by the logged gaps are exactly the sends dropped between the first and the last received |
| EndToEnd.TcpSender.constructor | src/tcp_connection.h:81 | a connection that has sent nothing |
| EndToEnd.TcpSender.EncodeAndQueue | src/tcp_connection.h:41-47 | the archive's bytes are queued, valid or not |
| EndToEnd.TcpSender.SendMessage | src/tcp_connection.h:33-52 | each call on an open connection extends the history of sends that the theorems quantify over, numbers it, and closes the connection exactly on failure; on a closed one the record still goes to the queue |
| EndToEnd.TcpSender.Settle | src/tcp_connection.h:47-51 | the outcome of a call enters the history, and a failure closes the connection |
| Snapshots.MergeAt | tests/test_tu.h:301-322 | after a merge an index holds its last update, or else what it held before |
| Snapshots.MergeAppend | tests/test_tu.h:301-322 | merging joined updates is merging one part after the other |
| Snapshots.SoaMergeAt | tests/test_tu.h:301-322 | of parallel arrays the first len entries count, all of them, and of those with the same index the last |
| Snapshots.AosMergeAt | tests/test_tu.h:275-296 | the same of an array of entries |
| Snapshots.MergeRunAll | tests/test_tu.h:299-323 | merging deltas in turn is applying all their ints and all their doubles in order |
| Snapshots.FieldTable.Set | src/spinner_core/md_ref.cpp:13-32 | array and bitset, read as a partial map, change at one index only |
| Snapshots.FieldTable.Get | src/spinner_core/md_ref.cpp:34-59 | the value last set at an index, or nothing if none was |
| Snapshots.FieldTable.MergeSoa | tests/test_tu.h:345-358 | the struct-of-arrays loop over the array snapshot is the merge on maps |
| Snapshots.FieldTable.MergeAos | tests/test_tu.h:327-340 | the array-of-structs loop over the array snapshot is the merge on maps |
| Snapshots.HashTable.Put | tests/test_tu.h:304-310 | find and then insert or overwrite is an update of the map |
| Snapshots.HashTable.MergeSoa | tests/test_tu.h:301-322 | the struct-of-arrays loop over the hash snapshot is the merge on maps |
| Snapshots.HashTable.MergeAos | tests/test_tu.h:275-296 | the array-of-structs loop over the hash snapshot is the merge on maps |
| Snapshots.HashSnapshot.MergeSoa | tests/test_tu.h:301-322 | ints and doubles are merged into their maps |
| Snapshots.HashSnapshot.MergeAos | tests/test_tu.h:275-296 | ints and doubles are merged into their maps |
| Snapshots.ArrSnapshot.MergeSoa | tests/test_tu.h:345-358 | ints and doubles are merged into their arrays, as into maps |
| Snapshots.ArrSnapshot.MergeAos | tests/test_tu.h:327-340 | ints and doubles are merged into their arrays, as into maps |
| Snapshots.MergeFourWays | tests/test_tu.h:273-359 | after any deltas both hash and both array snapshots hold the same ints and doubles |
| Snapshots.RefFields.SetInt | src/spinner_core/md_ref.cpp:13-18 | the value to be sent changes at that field only |
| Snapshots.RefFields.SetDbl | src/spinner_core/md_ref.cpp:20-25 | the value to be sent changes at that field only |
| Snapshots.RefFields.SetStr | src/spinner_core/md_ref.cpp:27-32 | the value to be sent changes at that field only |
| Snapshots.RefFields.GetInt | src/spinner_core/md_ref.cpp:34-41 | the value last set, or nothing |
| Snapshots.RefFields.GetDbl | src/spinner_core/md_ref.cpp:43-50 | the value last set, or nothing |
| Snapshots.RefFields.GetStr | src/spinner_core/md_ref.cpp:52-59 | the value last set, or nothing |
| DeltaBuilders.Conservation | src/spinner_core/delta_builder.h:54-112 | whatever the publisher answers, published fields followed by pending ones are, kind by kind, the accepted updates in order |
| DeltaBuilders.EndConserves | src/spinner_core/delta_builder.h:63-71 | a successful end has published everything accepted, the pending entries as one last delta with its own time, and leaves nothing pending; a failed one has changed nothing |
| DeltaBuilders.RefusedIff | src/spinner_core/delta_builder.h:54-112 | a call returns false exactly if it must publish and the next answer of the publisher is false, and asks the publisher only then |
| DeltaBuilders.AllAccepted | src/spinner_core/delta_builder.h:63-112 | a publisher that refuses nothing makes every add and the end succeed, so all updates of the calls are accepted in order |
| DeltaBuilders.RefusalsCount | src/spinner_core/delta_builder.h:73-112 | whatever the answers, as many adds are refused as false answers are used up |
| DeltaBuilders.Stamps | src/spinner_core/delta_builder.h:109-110 | a delta published by an add carries one stamp, the time of that add |
| DeltaBuilders.BuilderMerge | src/spinner_core/delta_builder.h:73-112 | merging the published deltas into any snapshot gives what applying every accepted update on its own gives |
| DeltaBuilders.FullCount | src/spinner_core/delta_builder.h:73-100 | full deltas hold 6 ints or 18 doubles each, counted kind by kind |
| DeltaBuilders.Packing | src/spinner_core/delta_builder.h:73-112 | all deltas but the last are full in one kind, and their number lies between what the updates need and the full ones of each kind plus one |
| DeltaBuilders.BuiltDeltaFits | src/spinner_core/md_ref.cpp:99-107 | a built delta fits an archive exactly when symbol and entries leave room; a full one exactly for symbols of at most 1802 characters |
| DeltaBuilders.MdDeltaBuilder.constructor | src/spinner_core/delta_builder.h:34-38 | nothing pending and nothing published |
| DeltaBuilders.MdDeltaBuilder.InitDelta | src/spinner_core/delta_builder.h:47-52 | the delta takes the symbol and both counts go to 0 |
| DeltaBuilders.MdDeltaBuilder.BeginDelta | src/spinner_core/delta_builder.h:40-45 | pending entries are dropped and the symbol is set |
| DeltaBuilders.MdDeltaBuilder.FlushDelta | src/spinner_core/delta_builder.h:102-112 | exactly the entries below the counts are published, with one stamp, and nothing pending changes |
| DeltaBuilders.MdDeltaBuilder.FlushAndBeginDelta | src/spinner_core/delta_builder.h:54-61 | a new delta is begun only if the publisher took the old one |
| DeltaBuilders.MdDeltaBuilder.AddIntData | src/spinner_core/delta_builder.h:73-85 | a full array is flushed first; the entry is appended unless that is refused |
| DeltaBuilders.MdDeltaBuilder.AddDblData | src/spinner_core/delta_builder.h:87-100 | a full array is flushed first; the entry is appended unless that is refused |
| DeltaBuilders.MdDeltaBuilder.EndDelta | src/spinner_core/delta_builder.h:63-71 | symbol and counts are cleared only if the publisher took the delta |
| Pipelines.UpdatesArrive | src/spinner_core/delta_builder.h:73-112 | updates built into deltas, sent over a connection that drops nothing and drains, and merged on arrival, however cut, amount to the updates themselves |
| Pipelines.UpdatesArriveAtOnce | src/spinner_core/delta_builder.h:73-112 | over a socket that takes what it is offered the same holds with no further premise on the connection |
| UdpPublishers.PublishEffect | src/udp_publisher.cpp:72-120 | what a publish does to the subscriber of each turn: sent and counted on, refused with an index used up, or not reached; removed exactly if nothing was refused and it was due and silent at its turn |
| UdpPublishers.PublishRefines | src/udp_publisher.cpp:72-120 | with successful sends a publish counts on every subscriber and removes exactly those due and silent, in whatever order the map is walked |
| UdpPublishers.FailedPublish | src/udp_publisher.cpp:83-93 | a failed send ends the publish: those before it are counted on, it has used up an index, the others and the set of subscribers are untouched |
| UdpPublishers.CountRun | src/udp_publisher.cpp:161 | in every reachable state, refused sends included, the atomic count is the number of subscribers modulo 2^16 |
| UdpPublishers.RegistryRun | src/udp_publisher.cpp:72-216 | in every reachable state, refused sends included, the registry holds exactly the subscribers that are there by the events; the session index counts the sends tried to one since its registration, its ticks those that succeeded, and its heartbeat time is its last sign of life |
| UdpPublishers.MemberIff | src/udp_publisher.cpp:146-199 | a subscriber is in the registry exactly if some registration of it is followed by no unregistration and by no publish that evicts it |
| UdpPublishers.RemovedWhenDue | src/spinner_core/spinner_core_util.h:124-135 | a subscriber that a publish removes was sent the message as a multiple of the check interval, counted since its registration, nobody was refused, and it was silent past the timeout |
| UdpPublishers.AgeRun | src/udp_publisher.cpp:72-216 | while no send is refused both counts are the publishes since the registration |
| UdpPublishers.RemovedIff | src/spinner_core/spinner_core_util.h:124-135 | the exact condition for a publish to remove a subscriber, a clock running backwards included |
| Heartbeats.SilentIff | src/spinner_core/spinner_core_util.h:124-135 | the check looks at the clock at every n-th send, every one if n is 0, and then compares the silence on 64 bits |
| UdpPublishers.SilentRun | src/udp_publisher.cpp:72-120 | a subscriber late at all its turns is gone exactly when a publish without a refused send has brought it to a tick that is due |
| UdpPublishers.SilentIsEvicted | src/udp_publisher.cpp:95-118 | a subscriber silent past the timeout is gone within as many successful publishes as the check interval, or one if that is 0, whatever the others do |
| UdpPublishers.InTimeStays | src/udp_publisher.cpp:95-118 | a subscriber heard of within the timeout is never removed by publishing, refused sends or not |
| UdpPublishers.UdpPublisherConnection.RegisterSubscriber | src/udp_publisher.cpp:146-167 | a new address is entered and counted, a known one is left as it is |
| UdpPublishers.UdpPublisherConnection.UnregisterSubscriber | src/udp_publisher.cpp:175-199 | a known address is removed and the count stored, an unknown one changes nothing |
| UdpPublishers.UdpPublisherConnection.OnHeartbeat | src/udp_publisher.cpp:207-216 | only the heartbeat time of a known address changes |
| UdpPublishers.UdpPublisherConnection.SendToAll | src/udp_publisher.cpp:78-114 | the loop over the subscribers is the specified walk, early return included |
| UdpPublishers.UdpPublisherConnection.PublishToSubscribed | src/udp_publisher.cpp:72-120 | walk and removals together are the specified publish |
| TcpDispatchers.PublishHands | src/tcp_publisher.cpp:79-112 | success hands the delta once to every valid subscribed connection and to no other, failure to a proper prefix; each that took it is counted on and closed if due and silent, the one that refused is closed, no other changes |
| TcpDispatchers.HandAt | src/tcp_publisher.cpp:84-110 | the connection of each turn has been served exactly if no send before it was refused |
| TcpDispatchers.PublishTurn | src/tcp_publisher.cpp:79-112 | at its turn a connection is served exactly if it wants the symbol and nobody who wants it has refused before, and handed the delta exactly if it then does not refuse |
| TcpDispatchers.DispatcherRun | src/tcp_publisher.cpp:79-181 | in every reachable state the dispatcher holds exactly the connections that are there by the events, each with the symbols it asked for, open or closed, last heard and counted as they say |
| TcpDispatchers.PresentIff | src/tcp_publisher.cpp:130-147 | a connection is there exactly if it was created and not disposed of since |
| TcpDispatchers.SubscribedIff | src/tcp_publisher.cpp:149-164 | it is subscribed to a symbol exactly if it has asked for it while it was there, and later requests take nothing away |
| TcpDispatchers.OpenIff | src/tcp_connection.cpp:175-194 | it is open exactly if nothing since its creation has disposed of it or closed it: its reader, a refused send, or a send at a tick that is due after too long a silence |
| TcpDispatchers.HandedIff | src/tcp_publisher.cpp:79-112 | by the events alone, a publish hands the delta to exactly those that want it, do not refuse it, and have their turn before anybody who wants it refuses |
| TcpDispatchers.AskedHanded | src/tcp_publisher.cpp:149-181 | a publish that returns true hands the delta to every open connection that has asked for its symbol |
| TcpDispatchers.ClosedWhenDue | src/spinner_core/spinner_core_util.h:124-135 | a publish closes a connection only if it refuses, or takes the delta as a multiple of the check interval, counted since its creation, after a silence past the timeout |
| TcpDispatchers.SubscribedAsked | src/tcp_publisher.cpp:149-164 | after any run a subscription goes back to a request made since the connection was created |
| TcpDispatchers.OnlySubscribed | src/tcp_publisher.cpp:166-181 | after any run a connection is only handed deltas for symbols it asked for |
| TcpDispatchers.NoneAfterClose | src/tcp_connection.cpp:175-194 | after any run a connection that was closed or disposed of is handed nothing more |
| TcpDispatchers.CountRun | src/tcp_publisher.cpp:130-147 | in every reachable state the atomic count is the number of connections modulo 2^16 |
| TcpDispatchers.DeltaDispatcher.CreateConnection | src/tcp_publisher.cpp:130-139 | the connection is entered, unsubscribed and valid, and counted |
| TcpDispatchers.DeltaDispatcher.DisposeConnection | src/tcp_publisher.cpp:141-147 | the connection is removed and the count stored |
| TcpDispatchers.DeltaDispatcher.AddSubscriptions | src/tcp_publisher.cpp:149-164 | the symbols are added to those of a known connection, and nothing else changes |
| TcpDispatchers.DeltaDispatcher.CloseConnection | src/tcp_connection.cpp:175-189 | the connection is no longer valid, and nothing else changes |
| TcpDispatchers.DeltaDispatcher.GetSubscribedConnections | src/tcp_publisher.cpp:166-181 | the valid connections subscribed to the symbol, in the order of the walk |
| TcpDispatchers.DeltaDispatcher.HandOver | src/tcp_publisher.cpp:84-110 | the send loop with heartbeat checks is the specified one, early return included |
| TcpDispatchers.DeltaDispatcher.PublishDelta | src/tcp_publisher.cpp:79-112 | selection and loop together are the specified publish |

## Left out

- EndToEnd.Delivery: speaks of messages that fit an archive, of the others `Frames.FramedIff` says when their records are still framed; with the offset rule as written it needs that no call sends a record that has an offset in part again, outside of which `SocketQueues.StreamIntegrity` fails.
- Frames.FramedIff: of messages other than texts with a payload of 2^16 bytes and more, the condition is the sum of the refused writes and not one on the message.
- Streams.FailsIff: speaks of streams in which nothing is delivered behind an ignored frame shorter than its stamp; in the others the outcome depends on the cut (`Readers.ChunkIndependence`).
- SocketQueues.AsWrittenDrainsIff: an answer that takes no bytes without failing counts as taking one, as send() never gives it for a record that is not empty.
- EndToEnd.TcpSender.SendMessage: what goes to the queue of a closed connection belongs to no run; no theorem speaks of a descriptor that the system has given to somebody else.
- Archives.Archive.LoadBits: the program does not catch the exception and ends; the model says when it is thrown and goes on as after a failed decode. What other loads return once the archive is invalid is not modelled.
- Snapshots.FieldTable.Set: the index lies inside the arrays; the program's array access has no check of its own.
- Snapshots.MergeFourWays: no string fields, since no merge of the program touches them.
- TcpDispatchers.CountRun: a connection is named by a number; a pointer reused after disposal is the same name created anew.
- Pipelines.UpdatesArrive: one begin and end per symbol; src/simulator.h:53-79 begins a second symbol without ending the first.
- The logging of gaps by the UDP reader, which is commented out in the program, and datagrams of no bytes or failed receives, which it only reports.
- `store_idxdata`, the codecs of `unordered_map`, and the bit-packed decimals of the tests: not used by any message.
- Login replies, menu and command handling above the message layer: the callbacks are the end of the model.
- Mutexes and condition variables: every guarded method is one step. Sleeps when all connections are throttled.
- Statistics, latency averages, logging, configuration loading, the admin console, libevent set-up, address lookup.
- Everything under src/dds: generated glue over libraries that are not part of this model.
