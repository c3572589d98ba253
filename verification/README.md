# Mooon: a verified model

This project models, in Dafny, the parts of the Mooon library and tools whose correctness spans many
functions or many runs, and proves what they promise.

**The HBase thrift2 RPC stack** (`Bytes`, `ThriftBinary`, `Schema`, `Codec`, `CodecLaws`, `RoundTrip`,
`HBaseTypes`, `Rpc`, `Dispatcher`, `HBaseService`, `HBaseWire`, `ConcurrentClient`, `Protocol`,
`StructObject`, `ServiceObjects`). Every generated struct is a field table (id, shape, requiredness, IDL default); the
generated `read`, `write`, setters, default constructor and `operator==` are functions of that table, and
`HBaseTypes` and `HBaseService` hold the tables of all seventeen structs and all sixteen methods; `HBaseWire`
spells out the bytes that these tables stand for. Three
views of one codec are proved equal:

- *bytes*: `Codec.ReadValue` and `RoundTrip.Write`, on TBinaryProtocol bytes, with every way to throw;
- *wire values*: `Codec.Absorb` folds a self-describing value, unknown and wrongly typed fields
  included, into an object;
- *objects*: `StructObject.TStruct`, `Protocol.TProtocol`, `ServiceObjects.THBaseServiceProcessor` and
  `ServiceObjects.THBaseServiceClient` update members, flags and streams in place, loop by loop, and are
  proved against the first view.

On top of the codec stand the dispatcher over whole request streams, calls from end to end, and the
concurrent client as a state machine: any number of threads, any handler, any order of replies.

**Queue movers** (`QueueMover`, `Kafka`). All interleavings of redis-to-redis mover threads; the
redis-to-Kafka retry loop over a queue that refuses whatever it likes; the deadline-bounded batch reader.

**Smaller cores** (`Epoll`, `Scp`, `ResourceMaker`). The cached epoll masks against the kernel's, the
interruptible wait, the scp transfer loops, and the printer of byte arrays as C++ initializers.

## What was found

Each point is a property that one might expect and that the code does not have; the lemma or method gives
the exact condition under which it holds.

- A read does not clear the object that it reads into. `get(TResult& _return, ...)` therefore hands the
  caller the row of an earlier call when the reply has none (`HBaseService.StaleRow`). The caller gets what
  the handler returned iff the reply has a row or the caller's object had none
  (`HBaseService.GetReturnsExactly`; for every method, `Rpc.SameOutcomeExactly`).
- `TMutation::write` writes both arms whatever the flags say, although TMutation is a union in the design:
  which arm the sender set does not survive (`HBaseService.MutationFlagsAreLost`). Equality ignores the
  flags, so the members do round-trip (`HBaseService.MutationRoundTrips`).
- A round trip of TColumnIncrement keeps equality iff `__isset.amount` is set
  (`HBaseService.IncrementRoundTripsExactly`). The flag starts true, and no setter and no read lowers it
  (`RoundTrip.DefaultIsBuilt`, `RoundTrip.SetterKeepsBuilt`, `RoundTrip.ReadKeepsBuilt`).
- A request for a known method that lacks a required argument gets no reply: the exception out of
  `args.read` leaves `process_x` and ends the connection (`HBaseService.MissingArgumentGetsNoReply`, with a
  `get` of a table and nothing else). A well-formed request is answered iff nothing required is missing and,
  for an unknown method, the error message fits the size limit (`Dispatcher.ProcessAnswers`,
  `Dispatcher.EveryRequestIsAnswered`).
- A log can also be lost on its way to Kafka: the batch has already been popped from redis, and an answer other
  than QUEUE_FULL drops what was not taken (`Kafka.RefusedLogIsLost`). A log is enqueued at all iff the batch was
  accepted or some attempt got beyond it (`Kafka.KeptExactly`).
- A log can reach Kafka more than once: with two logs and a queue that is full when the second is offered,
  the queue receives a, a, b (`Kafka.RefusedBatchRepeatsItsPrefix`). Each log of a batch is enqueued exactly
  once iff librdkafka refuses nothing but its first log, with QUEUE_FULL each time, and then takes the whole
  batch (`Kafka.OnceIffTakenAtOnce`, `Kafka.OnceExactly` and the contract of
  `Kafka.CRedis2kafkaMover.KafkaProduce`).
- `CEpoller::timed_wait` passes its uint32_t timeout as an int: asked for 2^31 ms or more, and only then, it waits
  for ever (`Epoll.WaitsForeverExactly`).
- A redis pop that fails after taking effect loses its batch, and nothing else does
  (`QueueMover.LostExactly`, `QueueMover.EveryItemIsAccountedFor`).
- `CEpollable::detach` breaks the agreement of the cached mask and the kernel iff the descriptor was
  registered (`Epoll.CEpoller.Detach`). `CEpoller::set_events` would break it iff the kernel accepted the
  mask -1, the cache's own mark for "absent", for a registered descriptor (`Epoll.CEpoller.SetEvents`);
  Linux refuses that mask since it has EPOLLEXCLUSIVE.

## Assumptions

- The Thrift runtime is not part of the repository. `ThriftBinary` and `Protocol` follow the Thrift binary
  protocol encoding (sections "Message", "Struct", "List and Set" and "Map"); sizes are below 2^31.
- `TConcurrentClientSyncInfo`: a generated sequence id is not that of a call in progress; a message is sent
  whole under the send mutex; the read mutex is held from the receive sentry on, except inside
  `waitForWork`, which returns only when the pending header is the thread's own or a wake-up is outstanding; a
  sentry that commits leaves a wake-up, and `getPending` takes it back; `updatePending` throws when nobody waits
  for the id; leaving without `commit` kills the connection.
- Handlers are arbitrary functions from method and arguments to outcomes, a new one for every request.
- A redis `rpop` or `lpush` that throws has either done nothing (`QueueMover.Atomic`) or taken or pushed the whole
  batch (`QueueMover.PopThrowsLate`, `QueueMover.PushThrowsLate`).
- librdkafka, libssh2, read(2), poll, epoll and clocks answer as they like, call by call; what consume
  answers, and how long it takes, may depend on the timeout it is given. epoll_ctl answers EEXIST and ENOENT
  according to its interest set, and may fail otherwise at any time.

## Model

| member | source | states |
|---|---|---|
| ThriftBinary.ReadIntEnc | tools/hbase_types.cpp:1016-1039 | integers of every width the structs use read back as written, with the bytes behind them untouched |
| ThriftBinary.ReadBinaryEnc | tools/hbase_types.cpp:988-995 | strings of any bytes read back as written |
| ThriftBinary.ReadMessageBeginEnc | tools/THBaseService.cpp:4035-4057 | the message header that one end writes (name, type, sequence id) is the header the other end reads |
| ThriftBinary.MessageBeginBytes | tools/THBaseService.cpp:4035-4057 | the header is the four bytes 80 01 00 type, the name with its length, and the sequence id |
| ThriftBinary.OldFormReads | tools/THBaseService.cpp:4050-4057 | a header in the protocol's older form, without a version, is read as the same header |
| ThriftBinary.SkipConsumesExactly | tools/hbase_types.cpp:1079-1082 | skipping a well-formed value of any type and nesting consumes its bytes and not one more |
| Schema.InsertLookup | tools/hbase_types.cpp:1057-1063 | filling a map by reference keeps, for each key, the value read last, and disturbs no other key |
| Schema.InsertLast | tools/hbase_types.cpp:1139-1144 | entries that arrive in the key order in which they were written rebuild the same map |
| Schema.LessExactly | tools/hbase_types.cpp:1139-1144 | map entries are written in byte order of their keys: of two keys the smaller one has the smaller byte at the first difference, or ends there |
| Schema.SameReflexive | tools/hbase_types.h:507-540 | the generated equality is reflexive, whatever unset members hold |
| Codec.ReadIsAbsorb | tools/hbase_types.cpp:966-1091 | on the bytes of any well-formed value `read` computes the fold of its fields, consumes exactly its bytes, and can throw nothing but INVALID_DATA |
| CodecLaws.FieldsAreIndependent | tools/hbase_types.cpp:980-1084 | `read` as a fold: each member ends as the fold of its own well-typed occurrences, its flag is raised iff it occurred, and the loop throws iff some member's own fold throws |
| CodecLaws.OnlyOccurrencesMatter | tools/hbase_types.cpp:980-1084 | messages that agree member by member on the occurrences are read alike, however these are interleaved and whatever is skipped between them |
| CodecLaws.PermutationInvariant | tools/hbase_types.cpp:980-1084 | permuting fields with distinct ids does not change the result |
| CodecLaws.LastWins | tools/hbase_types.cpp:996-1023 | of a repeated scalar, list or map the last occurrence wins |
| CodecLaws.RepeatedStructsMerge | tools/hbase_types.cpp:1024-1031 | a repeated nested struct merges field by field: reading it twice is reading the joined fields once |
| CodecLaws.InvalidDataExactly | tools/hbase_types.cpp:1086-1090 | INVALID_DATA is thrown iff some struct that is actually read, at any depth, has a required id without a well-typed occurrence, whatever the target held |
| CodecLaws.StripPreservesMeaning | tools/hbase_types.cpp:986-1082 | removing all unknown and wrongly typed fields at every depth does not change what is decoded |
| CodecLaws.InsertedFieldIsStripped | tools/hbase_types.cpp:1079-1081 | a field of unknown id or unexpected type, carrying anything, may be inserted at any position |
| CodecLaws.ReplacedFieldIsStripped | tools/hbase_types.cpp:1024-1030 | the same inside the value of a known field |
| CodecLaws.ReplacedElemIsStripped | tools/hbase_types.cpp:1005-1008 | the same inside a list element |
| CodecLaws.ForwardCompatible | tools/THBaseService.cpp:266-288 | values that differ only by such insertions decode to the same object, or the same exception, and leave the same unread bytes |
| RoundTrip.WriteThenRead | tools/hbase_types.cpp:1093-1157 | reading what was written into any object never throws, consumes exactly the bytes written, and yields the overlay of the written members on the target |
| RoundTrip.SameExactlyWhenFresh | tools/hbase_types.h:507-540 | the result equals the original iff no optional member that the original leaves unset was set in the target, at any depth |
| RoundTrip.DefaultIsBuilt | tools/hbase_types.h:879-898 | after default construction every flag that starts true is true, at every depth |
| RoundTrip.SetterKeepsBuilt | tools/hbase_types.cpp:474-477 | no setter lowers such a flag |
| RoundTrip.ReadKeepsBuilt | tools/hbase_types.cpp:479-540 | no read lowers such a flag, whatever the input |
| RoundTrip.BuiltIsFresh | tools/hbase_types.h:254 | a default-constructed object is a fresh target for every object the program can build |
| RoundTrip.RoundTrips | tools/hbase_types.cpp:2210-2438 | for every object built by constructor, setters and `read`, `read` into a fresh object after `write` gives an equal object and leaves exactly the bytes that follow |
| RoundTrip.SameExactlyWhenWrittenAlike | tools/hbase_types.h:507-540 | the generated equality is the equality of what is sent: two objects of one struct are equal iff `write` emits the same bytes for both |
| StructObject.TStruct.Set | tools/hbase_types.cpp:931-964 | after a setter the member is one that `write` emits, all other members and flags are as before, and flags that must be up stay up |
| StructObject.TStruct.Assign | tools/hbase_types.cpp:1024-1028 | a member that has been read is one that `write` emits again, and all other members and flags are as before |
| StructObject.TStruct.Read | tools/hbase_types.cpp:966-1091 | the field loop, in place, ends with the object, the unread bytes, the byte count or the exception that the specification gives |
| StructObject.TStruct.ReadMember | tools/hbase_types.cpp:986-1078 | each kind of case reads its member in place: nested structs merge, all others are replaced |
| StructObject.TStruct.ReadElements | tools/hbase_types.cpp:999-1008 | clear, resize and the indexed fill give the elements in wire order |
| StructObject.TStruct.ReadPairs | tools/hbase_types.cpp:1051-1063 | the map loop gives the sorted map of the pairs, last value per key |
| StructObject.TStruct.Write | tools/hbase_types.cpp:1093-1157 | the guarded writes append exactly the specified bytes and count them |
| StructObject.TStruct.WriteList | tools/hbase_types.cpp:1104-1112 | header, then every element in order |
| StructObject.TStruct.WriteMap | tools/hbase_types.cpp:1137-1146 | header, then every entry in key order |
| StructObject.TStruct.ReadField | tools/hbase_types.cpp:986-1083 | one turn of the loop reads a known, well-typed field into its member and skips any other, and counts its bytes |
| StructObject.CopyThroughWire | tools/hbase_types.cpp:966-1157 | writing an object and reading it into a new one gives an equal object, leaves what follows, and both sides return the same `xfer` |
| Protocol.PlusWraps | tools/hbase_types.cpp:969-983 | `xfer`, which wraps at 2^32 at every addition, stays the exact byte count modulo 2^32; every reading and writing loop uses this |
| HBaseTypes.LeafTablesAreGood | tools/hbase_types.cpp:53-919 | the tables of the leaf structs have distinct 16-bit ids, known types and integer defaults only |
| HBaseTypes.ReadTablesAreGood | tools/hbase_types.cpp:966-2438 | so do those of TGet and TScan |
| HBaseTypes.WriteTablesAreGood | tools/hbase_types.cpp:1242-2712 | so do those of TPut, TDelete, TIncrement, TAppend, TMutation and TRowMutations |
| HBaseWire.TTimeRangeBytes | tools/hbase_types.cpp:108-124 | the bytes of every TTimeRange, tags and ids literal: fields 1 and 2, both 64-bit integers |
| HBaseWire.TColumnBytes | tools/hbase_types.cpp:228-250 | the bytes of every TColumn, tags and ids literal: field 1, and 2 and 3 if set |
| HBaseWire.TColumnValueBytes | tools/hbase_types.cpp:391-421 | the bytes of every TColumnValue, tags and ids literal: fields 1 to 3, a 64-bit timestamp in field 4 if set, field 5 if set |
| HBaseWire.TColumnIncrementBytes | tools/hbase_types.cpp:542-563 | the bytes of every TColumnIncrement, tags and ids literal: fields 1 and 2, a 64-bit amount in field 3 if set |
| HBaseWire.TResultBytes | tools/hbase_types.cpp:673-698 | the bytes of every TResult, tags and ids literal: the row in field 1 if set, the list of column values in field 2 |
| HBaseWire.TAuthorizationBytes | tools/hbase_types.cpp:789-810 | the bytes of every TAuthorization, tags and ids literal: a list of strings in field 1 if set |
| HBaseWire.TCellVisibilityBytes | tools/hbase_types.cpp:885-898 | the bytes of every TCellVisibility, tags and ids literal: a string in field 1 if set |
| HBaseWire.TGetBytes | tools/hbase_types.cpp:1093-1157 | the bytes of every TGet, tags and ids literal: fields 1 to 8 with their tags, all but the row guarded by their flags |
| HBaseWire.TPutBytes | tools/hbase_types.cpp:1358-1411 | the bytes of every TPut, tags and ids literal: row and column values in fields 1 and 2 always, fields 3, 5, 6 and 7 if set |
| HBaseWire.TDeleteBytes | tools/hbase_types.cpp:1604-1658 | the bytes of every TDelete, tags and ids literal: the row in field 1, and fields 2, 3, 4, 6 and 7 if set, the 32-bit delete type in field 4 |
| HBaseWire.TIncrementBytes | tools/hbase_types.cpp:1838-1886 | the bytes of every TIncrement, tags and ids literal: the row and the column increments in fields 1 and 2, and fields 4 to 6 if set |
| HBaseWire.TAppendBytes | tools/hbase_types.cpp:2062-2110 | the bytes of every TAppend, tags and ids literal: the row and the column values in fields 1 and 2, and fields 3 to 5 if set |
| HBaseWire.TScanBytes | tools/hbase_types.cpp:2358-2438 | the bytes of every TScan, tags and ids literal: fields 1 to 11, each guarded by its flag |
| HBaseWire.TMutationBytes | tools/hbase_types.cpp:2564-2580 | the bytes of every TMutation, tags and ids literal: both arms, put and delete, without a guard |
| HBaseWire.TRowMutationsBytes | tools/hbase_types.cpp:2688-2712 | the bytes of every TRowMutations, tags and ids literal: the row and the list of mutations |
| HBaseWire.TIOErrorBytes | tools/hbase_types.cpp:2788-2801 | the bytes of every TIOError, tags and ids literal: the message if set |
| HBaseWire.TIllegalArgumentBytes | tools/hbase_types.cpp:2887-2900 | the bytes of every TIllegalArgument, tags and ids literal: the message if set |
| HBaseWire.IncrementPreset | tools/hbase_types.h:254 | a new TColumnIncrement has amount 1 with its flag raised, and no other flag |
| HBaseWire.DeletePreset | tools/hbase_types.h:644 | a new TDelete has delete type 1 with its flag raised, and no other flag |
| HBaseWire.ScanPreset | tools/hbase_types.h:879 | a new TScan has maxVersions 1 with its flag raised, and no other flag |
| HBaseWire.RequiredInParts | tools/hbase_types.cpp:53-919 | exactly these ids of the nested structs and exceptions are required |
| HBaseWire.RequiredInOperations | tools/hbase_types.cpp:966-2712 | exactly these ids of the operations are required |
| HBaseWire.StructRequest | tools/THBaseService.cpp:323-339 | the arguments of the eight methods that take a table and one struct: string in field 1, struct in field 2 |
| HBaseWire.ListRequest | tools/THBaseService.cpp:572-595 | those of the three methods that take a list of structs |
| HBaseWire.CheckRequest | tools/THBaseService.cpp:1107-1139 | those of the two check-and-change methods: five strings in fields 1 to 5, the struct in field 6 |
| HBaseWire.ScannerRequest | tools/THBaseService.cpp:3073-3089 | those of the three scanner methods, 32-bit numbers included |
| HBaseWire.ReplyBytes | tools/THBaseService.cpp:3165-3195 | the body of every reply: the value in field 0, TIOError in 1, TIllegalArgument in 2, an empty struct for void, or the application exception of type 0 |
| HBaseWire.Returns | tools/THBaseService.h:34-208 | what each of the sixteen methods returns, and that the scanner methods getScannerRows and closeScanner alone may throw TIllegalArgument |
| HBaseWire.ServiceIsGood | tools/THBaseService.cpp:4948-4965 | the service is one to which all theorems about the concurrent client apply |
| Rpc.FindMethod | tools/THBaseService.cpp:4949-4951 | the lookup finds the method of that name, and none only if there is none |
| Rpc.ResultToWire | tools/THBaseService.cpp:3165-3195 | the else-if chain writes at most one arm, in a form that the result readers accept |
| Rpc.ServerResultArm | tools/THBaseService.cpp:5045-5051 | the arm that is written is the one of the handler's outcome; a void return writes none |
| Rpc.PresultReadsResult | tools/THBaseService.cpp:420-467 | `presult.read` after `result.write`, including the three-way results, recovers the outcome's arm and value and consumes exactly the result |
| Rpc.AppExceptionArrives | tools/THBaseService.cpp:5057-5063 | an application exception arrives with its message and type |
| Rpc.ReplyIsDelivered | tools/THBaseService.cpp:6010-6056 | both clients turn the reply of `process_x` into exactly the handler's outcome, consume exactly the reply, and never take the branch that leaves without commit; for void methods no arm means normal return |
| Rpc.EveryReturnArrives | tools/THBaseService.cpp:5045-5051 | whatever value the handler returns, the client returns normally, with that value laid over its `_return` object |
| Rpc.EveryExceptionArrives | tools/THBaseService.cpp:3165-3195 | a TIOError thrown by the handler is thrown by the client as an equal TIOError, and so is a TIllegalArgument where the method declares it |
| Rpc.EveryErrorArrives | tools/THBaseService.cpp:5052-5063 | any other exception reaches the client as an application exception with its what() and type 0 |
| Rpc.SameOutcomeExactly | tools/THBaseService.cpp:6040-6047 | exceptions always arrive unchanged; a returned value does iff the caller's `_return` object was fresh for it |
| Dispatcher.ProcessAnswers | tools/THBaseService.cpp:4948-4965 | one well-formed request, of known or unknown name, is consumed up to its boundary and answered iff it lacks nothing required and its error message fits; otherwise the exception is INVALID_DATA or SIZE_LIMIT and there is no answer |
| Dispatcher.EveryRequestIsAnswered | tools/THBaseService.cpp:4948-4965 | for every finite stream of well-formed requests the server answers each once, in order, up to the first refused one, which ends the connection; if none is refused it stops at the boundary after the last |
| Dispatcher.AnswerHeader | tools/THBaseService.cpp:5070-5074 | each answer is one message of type 2 or 3 with the request's own name and sequence id, and its body can be skipped whole; unknown names get type 3 |
| Dispatcher.UnknownMethodIsReported | tools/THBaseService.cpp:4951-4961 | every well-formed request of unknown name is answered by an EXCEPTION that reads as "Invalid method name: 'name'" with type 1, and every `recv_x` of the client throws just that |
| Dispatcher.ArgumentsArrive | tools/THBaseService.cpp:1107-1139 | what the client's pargs write, the server's args read back as equal arguments, iff no flag that starts true was cleared by hand |
| Dispatcher.CallEndToEnd | tools/THBaseService.cpp:4029-4090 | one call through both ends: the handler runs once, on equal arguments under the condition above, the caller gets its outcome, and both streams are left at the next message |
| HBaseService.MethodsAreGood | tools/THBaseService.h:2237-2255 | the sixteen registered methods have distinct names and sound argument and result tables, presets included, so all laws here apply to them |
| HBaseService.MissingArgumentGetsNoReply | tools/THBaseService.cpp:5036-5038 | a `get` that carries only the table is well formed and ends in INVALID_DATA without a reply |
| HBaseService.AbsentArgument | tools/THBaseService.cpp:2998-3048 | an argument that a request leaves out or mistypes reaches the handler with its default |
| HBaseService.NumRowsDefaultsToOne | tools/THBaseService.h:1672-1683 | getScannerRows and getScannerResults without numRows call the handler with 1 |
| HBaseService.PresetFreeRoundTrips | tools/hbase_types.cpp:1242-1411 | structs without IDL defaults, such as TPut, round-trip whatever their flags are |
| HBaseService.IncrementRoundTripsExactly | tools/hbase_types.cpp:542-563 | TColumnIncrement round-trips iff its amount flag is set |
| HBaseService.MutationFlagsAreLost | tools/hbase_types.cpp:2564-2580 | the receiver of a TMutation sees both flags raised; the sender's choice survives iff both were raised |
| HBaseService.MutationRoundTrips | tools/hbase_types.h:1030-1037 | both arms of a TMutation do arrive, and equality, which ignores the flags, holds |
| HBaseService.GetReturnsExactly | tools/THBaseService.cpp:4050-4090 | `get` returns what the handler returned iff the reply has a row or the caller's object had none |
| HBaseService.StaleRow | tools/THBaseService.cpp:4050-4090 | the concrete failure, from the reply's own bytes: a result object used again reports the earlier row |
| HBaseService.ResultMethods | tools/THBaseService.h:2241-2251 | get, increment and append return a TResult, so they all do |
| ServiceObjects.THBaseServiceProcessor.DispatchCall | tools/THBaseService.cpp:4948-4965 | lookup and dispatch consume and emit what the specification says; an exception leaves the output untouched, except that the reply to an unknown name near the size limit breaks off after its first field header; what an unknown name gets is stated by ServiceObjects.CallUnknown |
| ServiceObjects.THBaseServiceProcessor.ProcessMethod | tools/THBaseService.cpp:5036-5079 | `process_x` reads the arguments, calls the handler on them, and appends the one reply of its outcome |
| ServiceObjects.THBaseServiceProcessor.WriteResult | tools/THBaseService.cpp:395-413 | the else-if chain emits the first arm that is set, or none |
| ServiceObjects.THBaseServiceProcessor.Run | tools/THBaseService.cpp:4948-4965 | a connection emits the replies to its requests in order and stops at the first exception, with every earlier reply emitted |
| ServiceObjects.RunAnswersAll | tools/THBaseService.cpp:4948-5079 | what a run emits before the first refused request is, request by request, one whole message with the request's name and sequence id |
| ServiceObjects.THBaseServiceClient.Send | tools/THBaseService.cpp:4035-4048 | `send_x` appends one whole call message |
| ServiceObjects.THBaseServiceClient.Receive | tools/THBaseService.cpp:4050-4090 | `recv_x` ends as the specification of the plain client says |
| ServiceObjects.CallThrough | tools/THBaseService.cpp:4029-4033 | a call through the client and processor objects: the arguments in, equal under the condition above, the handler's outcome out, nothing left over on either transport |
| ServiceObjects.CallUnknown | tools/THBaseService.cpp:4948-4965 | a call of a method that the processor object does not know makes the client object throw "Invalid method name: 'name'" with type 1, with nothing left over on either transport |
| ConcurrentClient.NextInv | tools/THBaseService.cpp:6001-6063 | every step of every thread and of the server keeps the invariant: one message per call in progress, one reader, stream aligned with the headers taken, finished calls correct, no wake-up lost |
| ConcurrentClient.OwnReplyIsNext | tools/THBaseService.cpp:6014-6056 | when the header in hand carries the reader's id, the body next in the stream is the reply to its own call, and reading it commits |
| ConcurrentClient.EveryCallGetsItsOwnOutcome | tools/THBaseService.cpp:5976-6063 | in every run, each completed call got exactly the outcome that a handler produced for that call's own arguments, at a step after the thread had sent this very call; with the exact conditions for equal arguments and an equal return value |
| ConcurrentClient.StreamStaysAligned | tools/THBaseService.cpp:6010-6062 | in every run the connection never dies, and without a reader the stream is at a boundary with the slot empty, or the slot holds the header whose body is next and somebody waits for it |
| ConcurrentClient.BodiesGoToTheirOwners | tools/THBaseService.cpp:6010-6062 | no header in the slot is overwritten, and a body leaves the stream only whole, once, and to the thread with its sequence id |
| ConcurrentClient.NoDeadlock | tools/THBaseService.cpp:6057-6061 | while a call is in progress, some thread or the server can move, whatever the handlers are |
| ConcurrentClient.EveryCallCanComplete | tools/THBaseService.cpp:6010-6062 | from every state of every run and for every handler, each call in progress can be completed by finitely many steps of threads and server, without any new call |
| ConcurrentClient.IdleThreadCanSend | tools/THBaseService.cpp:5982-5999 | in every state of every run each idle or finished thread can send any good call of unused id, whatever calls are in progress: one message of type 1 with the name, the id and the argument bytes, and nothing else changes |
| ConcurrentClient.AnyRequestCanBeServed | tools/THBaseService.cpp:5026-5079 | in every state of every run the server can answer any request sent so far, in any order, and the reply carries its id |
| ConcurrentClient.CallsOverlap | tools/THBaseService.cpp:6010-6062 | any two calls of different ids and two threads: there is a run with both in progress, the second answered first, its header parked in the slot by the first thread, and both completed |
| QueueMover.Conservation | tools/redis_queue_mover.cpp:392-485 | in every run of any number of threads, with shared keys and atomic failures, each item's occurrences in all lists and batches in hand never change |
| QueueMover.NothingInFlightAtExit | tools/redis_queue_mover.cpp:392-485 | a stopped mover has lost nothing, even if it was stopped during a push retry |
| QueueMover.ExitedOnlyIfStopped | tools/redis_queue_mover.cpp:392 | in every run a mover has left its loop only if g_stop is set |
| QueueMover.NoPopAfterStop | tools/redis_queue_mover.cpp:392 | once g_stop is set, a mover at its loop test stays there or exits |
| QueueMover.StoppedThreadCanExit | tools/redis_queue_mover.cpp:392-485 | once g_stop is set, every mover can exit, after pushing the batch that it holds |
| QueueMover.EverythingCanBeMoved | tools/redis_queue_mover.cpp:392-485 | from every state of every atomic run with one mover per queue, finitely many steps empty a queue's source, and its destination then pops what it popped first, followed by all of the source |
| QueueMover.AnyStart | tools/redis_queue_mover.cpp:325-333 | every configuration and content of the lists is the start of a run |
| QueueMover.AnythingCanFail | tools/redis_queue_mover.cpp:412-483 | at any time g_stop can be set, and every pop and push can fail, before or after taking effect |
| QueueMover.QueuesAreShared | tools/redis_queue_mover.cpp:332-333 | threads are dealt to queues in turn |
| QueueMover.PopTakesExactly | tools/redis_queue_mover.cpp:402-410 | one pop takes min(items there, batch), or at most 1 if batch is at most 1 |
| QueueMover.NoBatchIsLarger | tools/redis_queue_mover.cpp:402-410 | so no batch in any run is larger, and none that is pushed is empty |
| QueueMover.MovedCountsItems | tools/redis_queue_mover.cpp:462-467 | the global counter is the number of items in pushed batches, each counted once however often it landed |
| QueueMover.FifoAtLeastOnce | tools/redis_queue_mover.cpp:400-482 | with one thread per queue and distinct keys, even if pops and pushes fail after taking effect: order is kept, and only whole batches are missing or repeated |
| QueueMover.LostExactly | tools/redis_queue_mover.cpp:395-416 | a batch never reaches the destination iff its pop failed after taking effect |
| QueueMover.NothingLost | tools/redis_queue_mover.cpp:454-483 | every other batch that is done with has reached it at least once |
| QueueMover.EveryItemIsAccountedFor | tools/redis_queue_mover.cpp:392-485 | with every kind of failure, any number of threads and shared keys: the lists hold what they held, less the batches popped, plus each batch as often as it landed |
| QueueMover.FifoExactlyOnce | tools/redis_queue_mover.cpp:400-482 | with atomic failures the pop order of destination, batch in hand and source is invariant, for every batch size and failure pattern |
| QueueMover.KeysCollideExactly | tools/redis_queue_mover.cpp:491-508 | two queues share a key iff they are the same queue or only the prefix is used |
| QueueMover.KeySpells | tools/redis_queue_mover.cpp:491-508 | a key is the prefix, followed by the queue's decimal number unless only the prefix is used |
| Kafka.HashFits | src/utils/string_utils.cpp:692-709 | the hash leaves its top four bits clear, so there are at most 2^28 hash values |
| Kafka.ShortHash | src/utils/string_utils.cpp:692-709 | for keys of up to six characters the hash is the polynomial in 16 with the character codes as coefficients |
| Kafka.ShortPartition | src/net/kafka_producer.cpp:53-57 | for such keys the partition is that polynomial modulo the number of partitions |
| Decimals.DecimalReads | tools/queue_redis2kafka.cpp:383 | a decimal number read from left to right gives the number back, and has no leading zero |
| Kafka.Partition | src/net/kafka_producer.cpp:53-57 | the partition of a key is in range |
| Kafka.CKafkaProducer.ProduceBatch | src/net/kafka_producer.cpp:207-250 | the longest accepted prefix is enqueued, its length returned, and the error is that of the refusal that ended it |
| Kafka.CRedis2kafkaMover.KafkaProduce | tools/queue_redis2kafka.cpp:381-415 | what one batch enqueues is a concatenation of strict prefixes, then the whole batch iff it ends with errcode 0, all under one key and so in one partition; produce_number grows by the batch exactly then; every log is enqueued exactly once iff the answers are QUEUE_FULL for the first log, any number of times, and then acceptance of all |
| Kafka.OnceIffTakenAtOnce | tools/queue_redis2kafka.cpp:388-414 | no refused attempt got anywhere and the batch was accepted iff librdkafka's answers have that form |
| Kafka.OnceExactly | tools/queue_redis2kafka.cpp:388-414 | each log is enqueued exactly once iff the batch was accepted and no refused attempt enqueued anything |
| Kafka.RefusedBatchRepeatsItsPrefix | tools/queue_redis2kafka.cpp:388-414 | two logs and a queue that is full for the second: the queue gets the first one twice |
| Kafka.KeptExactly | tools/queue_redis2kafka.cpp:388-414 | a log is enqueued at all iff the batch was accepted or some attempt got beyond it |
| Kafka.RefusedLogIsLost | tools/queue_redis2kafka.cpp:407-410 | two logs and an error for the second: the first is kept, the second lost |
| Kafka.EnqueuedCopies | tools/queue_redis2kafka.cpp:388-414 | the queue holds each log of a batch as often as the attempts that reached its position, and once more if the batch was accepted |
| Kafka.LastLogIffAccepted | tools/queue_redis2kafka.cpp:388-414 | the last log of a batch is enqueued once iff the batch was accepted and never twice; no log is enqueued less often than a later one |
| Kafka.CKafkaConsumer.ConsumeBatch | src/net/kafka_consumer.cpp:438-508 | consecutive messages are appended in order and counted, the flags are set only for count 0 and never both, it stops early only for an error or the deadline; each consume is given what is left of the time |
| Kafka.WithinDeadline | src/net/kafka_consumer.cpp:440-478 | if consume(t) returns within t for every t, a call that passes what is left of the time ends by its deadline |
| Epoll.CEpoller.SetEvents | src/net/epoller.cpp:91-112 | it never meets EEXIST or ENOENT, sends only changed masks, changes nothing when the kernel fails it, and keeps cache and kernel in agreement iff the kernel does not accept -1 over a registered mask |
| Epoll.CEpoller.DelEvents | src/net/epoller.cpp:114-125 | the kernel forgets the descriptor and the cache says so; it fails with ENOENT iff the descriptor was not registered, otherwise only if the kernel fails it, and then changes nothing |
| Epoll.CEpoller.Close | src/net/epollable.cpp:154-171 | closing keeps agreement for every epollable, so that the descriptor can be handed out again |
| Epoll.CEpoller.Detach | include/mooon/net/epollable.h:153 | agreement survives iff nothing was registered |
| Epoll.CEpoller.Run | src/net/epoller.cpp:91-125 | over every sequence of opens with reused descriptors, non-forced set_events, del_events and closes: agreement always, no ADD of a registered and no MOD of an absent descriptor |
| Epoll.TimeoutShrinks | src/net/epoller.cpp:77-82 | whatever the clock does, backward jumps and uint32 wrap included, each interruption shortens the timeout until it is 0 |
| Epoll.TimeoutExactly | src/net/epoller.cpp:77-82 | for every clock, the timeout after n interruptions is what was asked for less the sum of what each took away, or 0 |
| Epoll.SteadyTimeout | src/net/epoller.cpp:77-82 | with a clock that does not go back, that sum is the seconds elapsed times 1000, plus 10 for each interruption |
| Epoll.Shorten | src/net/epoller.cpp:80-81 | one interruption takes exactly that off the timeout |
| Epoll.TimeoutShrinksByTen | src/net/epoller.cpp:77-82 | with a clock that does not go back, at most ceil(ms/10) interruptions bring it to 0 |
| Epoll.WaitsForeverExactly | src/net/epoller.cpp:67-75 | the timeout passed is negative, which epoll_wait takes as infinite, iff 2^31 ms or more were asked for; otherwise none is negative or longer than asked |
| Epoll.TimedWait | src/net/epoller.cpp:67-89 | the timeout that it passes after i interruptions is that exact remainder, as an int; it retries interruptions only, and returns the first other result |
| Scp.WriteChannel | src/net/libssh2.cpp:709-745 | the bytes sent are a prefix of the buffer, all of it iff the call returns; it throws iff a write got a fatal answer |
| Scp.Upload | src/net/libssh2.cpp:190-257 | whatever happens a prefix of the file has been sent; on return, all of an unchanged file; it throws iff the file is empty, a read failed or a write got a fatal answer; without errors and timeouts it returns |
| Scp.ReadChannel | src/net/libssh2.cpp:653-707 | for every chunking and EAGAIN pattern the output is the stream in order, exactly the first min(length, st_size) bytes when it returns, and never past st_size; it throws iff a read got a fatal answer |
| Scp.UploadThenDownload | src/net/libssh2.cpp:173-257 | download after upload is the identity on files that are not empty |
| ResourceMaker.WriteCppFile | tools/resource_maker.cpp:166-217 | the nested loops end for every length, 0 and multiples of 16 included, and print the element count and the initializer of exactly the bytes before the terminator |
| ResourceMaker.InitializerRoundTrips | tools/resource_maker.cpp:188-212 | parsing the printed initializer gives back exactly the bytes |
| ResourceMaker.TwoBytes | tools/resource_maker.cpp:188-212 | the initializer of the bytes 7 and 171, spelled out |
| ResourceMaker.Layout | tools/resource_maker.cpp:188-209 | one comma fewer than elements and as many lines as 16 to a line need |
| ResourceMaker.RowsOfSixteen | tools/resource_maker.cpp:188-209 | every line but the last holds 16 elements, and the last one the rest |

## Left out

- StructObject.TStruct.Read: after an exception the partly filled object and the stream position are not described; the callers drop both.
- StructObject.TStruct.Set: members are held by their place in the field table, not as named C++ members, so one class stands for all generated structs.
- Codec.ReadIsAbsorb: a list, set or map whose element tags differ from the schema is not covered, because the generated code reads these tags and ignores them; nor is the depth limit of the runtime's recursion tracker, which matters only for skipped values.
- ConcurrentClient.EveryCallCanComplete: says that the completing steps exist, not that every scheduler takes them, nor which sleeping thread a notification reaches.
- Kafka.CRedis2kafkaMover.KafkaProduce: follows the retry loop for at most `patience` attempts, because a queue that stays full is retried for ever.
- Kafka.Partition: hashes 7-bit keys, where the signedness of `char` does not matter; the mover's keys are decimal numbers. An empty key and a caller's own partition are not modelled.
- QueueMover.EveryItemIsAccountedFor: a batch is popped or pushed whole or not at all; the file source and file destination paths, failed connections at start-up, the wrap of the counters and the statistics thread are not modelled.
- Epoll.CEpoller.Run: `force`, the sensor, `before_close` hooks, half closes and re-created epollers are not modelled.
- Scp.Upload: opening the channel, the end-of-file handshake and freeing are not modelled; remotely_execute shares only the read loop.
- ResourceMaker.WriteCppFile: the fixed header and footer text and the .h file are not modelled.
- Client behaviour against a server that is not built from `process_x`: the fall-through after a reply of another type or name is in the model, but only proved not to happen.
- Dispatcher.CallEndToEnd: pargs have no flags; their values are those of args with the flags of a default-constructed one.
- Handler exceptions that are not derived from std::exception, event handlers, the message type check of the runtime's processor, flushing and transports other than an in-memory buffer.
- printTo, swap, what(), copy construction, logging and command lines: plumbing.
- The Multiface that calls several handlers in turn.
- The other movers (redis to redis, redis to file, kafka to redis, file to redis), data_channel, tcp_waiter, and all remaining tools.
