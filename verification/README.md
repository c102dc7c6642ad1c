# A verified model of the key-agreement server's message stack

The repository is a C++ server with which clients agree on secret keys. Its protocol stack has four layers, and this
project models each of them and proves what holds across them:

1. **Connections** (`NetMessage`, `TSQueue`, `Framing`, `ConnectionState`, `ConnectionLaws`, `ConnectionRuns`,
   `Delivery`, `DeliveryWitness`, `Handshake`, `ChallengeWords`, `ConnectionObject`). A message is an 8-byte header
   (id, body size) and a body used as a stack. Each end of a connection has an outgoing queue with a callback-driven
   writer, a callback-driven reader, and an 8-byte challenge/response handshake that runs first. The state machine
   splits every asynchronous operation into steps: bytes move in any portions, then the completion handler runs with
   success or failure; posts, closes and the peer interleave freely. Operations are counted as they start and as they
   end, so that two overlapping ones would show.
2. **Protobuf codec** (`Wire`, `Codec`, `RequestCodec`, `RespondCodec`, `Messages`). The generated parser, writer,
   size computation and merge of `RequestMsg` and `RespondMsg`, on top of varints, tags and length-delimited values
   written out as the Protocol Buffers "Encoding" guide defines them, with retained unknown fields. The laws of
   parsing, serialising and merging are proved once, in `Codec`, for any message type that meets a few conditions, and
   both messages are shown to meet them (`IsLawful`).
3. **Worker pool** (`ThreadPool`, `ThreadPoolObject`). Workers, putters and the thread in `Stop`, interleaved at every
   access to the shared state, spurious wakeups included.
4. **Server** (`KeyRegistry`, `KeyTraffic`, `KeySchedules`, `SharedClientId`, `Server`, `MessagePump`,
   `ServerInterface`, `Reply`, `Conversation`, `ConversationWitness`). Key agreement over a model of the key directory,
   with handlers interleaved at every file access: a stream writes to the file it has opened, whatever has the name by
   then. Dispatch and replies; the message pump; the container of connections with accepts and broadcasts; and the
   composition of everything into statements about requests and replies, with runs that show they are not empty.

Where the source has an object whose methods update it, the project has a class whose methods are proved to be the
steps of the state machine beside it (`ConnectionObject.Connection`, `ThreadPoolObject.ThreadPool`, the two message
classes, `Server.Server`, `ServerInterface.ServerInterface`, `NetMessage.Message`, `TSQueue.Queue`). The theorems are
about the state machines and hold in every state of every run. A connection and a pool carry their history as a ghost
field, which `Valid()` says is a run ending in the object's state; every handler keeps `Valid()`, so that the theorems
hold of the objects (`ConnectionObject.Connection.Guarantee`, `ThreadPoolObject.ThreadPool.Guarantee`).

## What the code does where one might expect otherwise

- **An empty message carries an old body.** A header announcing no body leaves the reader's temporary body as it was
  (`include/net/net_connection.hpp:214-223`). The i-th delivered message therefore has the body of the latest
  non-empty message among the first i+1 posted. `Delivery.DeliveredArePosted` states this exactly,
  `DeliveryWitness.StaleBodyIsDelivered` gives a run for any non-empty message followed by an empty one, and
  `Reply.RequestArrives` the consequence: a request with every field empty reaches the server as itself exactly if no
  non-empty message precedes it.
- **Scrambling drops the top byte.** Two challenges have the same answer exactly if their low 56 bits agree
  (`Handshake.ScrambleCollides`, `ChallengeWords.AnswerDecides`).
- **Two agreements in flight for one client id lose a key.** Between the test for the key file and its creation
  another handler can pass the same test. `KeyRegistry.AgreementIsSound` holds for all runs in which no two requests
  in flight share a client id. For any set of requests, sent any number of times,
  `SharedClientId.SoundnessBreaksExactly` says when some interleaving breaks it: a request has a client id without a
  key file and verifies with keys sent for that client id, laid over one another. That is its own key or another's,
  an empty file, or a mixture: streams that are open at once each write at the start of the file, and a shorter key
  leaves the tail of a longer one (`KeySchedules.TwoKeysMix`, `SharedClientId.MixtureBreaksSoundness`). There are at
  most as many keys as the pool has threads, its own among them if there are that many.
  `SharedClientId.KeyIsLostExactly` says when an accepted key can be lost for good: in the same cases, unless all
  requests for the client id carry one key and verify with it and with an empty file. A plain retry can lose the
  key, too (`KeySchedules.RetryLosesKey`): the second handler empties the file before it writes it again.
- **`Stop` can hang.** It clears `running_` and notifies without the lock, so a worker that has just decided to wait
  misses the notification. `ThreadPool.StopReturnsExactly` is the exact condition: when none of the pool's own steps
  is left, `Stop` has returned if and only if no worker was in that position at the notification. `ThreadPool.Settle`
  shows that the own steps do come to an end, and `ThreadPool.StopCanMissAWorker` that a pool of any size can hang.
  Safety does not depend on it.
- **`MessageClient` never shrinks the container.** The comment says a closed client is removed; the reference is
  cleared before it is searched for, so nothing is erased (`ServerInterface.ServerInterface.MessageClient`).
- **Over-long messages encode to nothing.** The round trip through `EncodeMsg` and `DecodeMsg` holds exactly if the
  serialisation has at most 2^31 - 1 bytes (`Messages.RequestRoundTrip`, `Messages.RespondRoundTrip`).

## Assumptions

- Both hosts lay out the message header and the handshake word alike, low byte first.
- A posted message's size field is its body's length, and the first `Send` of a side runs after that side's handshake
  word has been written. Both are conditions of the step `APost`.
- `Hash`, `Verify` and `Encrypt` are total functions (`KeyRegistry.Crypto`); encryption does not throw and its output
  is shorter than 2^32 bytes.
- File operations succeed; paths that differ as strings are different files. Logging does nothing.
- A key is written by one write, and read by one read as soon as its file is opened. A missing key file reads as an
  empty one: both leave a blank key (`include/openssl/mine_rsa.hpp:43-50`).
- The protobuf library does not serialise more than 2^31 - 1 bytes and yields an empty string then. Its reader accepts
  any length-delimited field up to 2^31 - 1 bytes; a library that refuses lengths within its read-ahead margin (16
  bytes) of that limit also refuses fields in that margin, which the round trips below do not set apart.
- The handshake's memory image, its inverse and `Scramble` are parameters of the connection's state machine (`Words`);
  `ChallengeWords.RealWordsAreLawful` shows that the real ones satisfy what delivery needs of them.

## Model

| member | source | states |
|---|---|---|
| NetMessage.HeaderRoundTrip | include/net/net_msg.hpp:13-17 | a header is recovered from its memory image |
| NetMessage.HeaderByteAt | include/net/net_msg.hpp:13-17 | octets 0 to 3 of a header are the digits of the id to the base 256 and octets 4 to 7 those of the size, lowest first |
| NetMessage.HeaderImageRoundTrip | include/net/net_connection.hpp:202-212 | any eight octets are the image of the header they read as |
| NetMessage.Message.Push | include/net/net_msg.hpp:41-52 | a pushed value lies on top of the old body, the id stays and the size field follows the body's length |
| NetMessage.Message.Pop | include/net/net_msg.hpp:54-65 | popping returns the top bytes and leaves the rest |
| NetMessage.TypedProgramsRefine | include/net/net_msg.hpp:41-65 | any program of typed pushes and type-matching pops gives the outputs of the same program on a stack of values and keeps id and size field right |
| NetMessage.SizeFieldIsLength | include/net/net_msg.hpp:50-63 | after any such program the size field is the body's length exactly while the body is shorter than 2^32 |
| TSQueue.Queue.Front | include/net/net_tsqueue.hpp:20-23 | the oldest element |
| TSQueue.Queue.PopFront | include/net/net_tsqueue.hpp:30-35 | takes the oldest element off |
| TSQueue.Queue.PushBack | include/net/net_tsqueue.hpp:44-50 | appends |
| TSQueue.Queue.Empty | include/net/net_tsqueue.hpp:60-63 | tells whether nothing is queued |
| TSQueue.Queue.Size | include/net/net_tsqueue.hpp:65-68 | the number of queued elements |
| Handshake.UnscrambleInverts | include/net/net_connection.hpp:255-259 | an explicit inverse recovers the low 56 bits of a challenge from its answer |
| Handshake.ScrambleByByte | include/net/net_connection.hpp:255-259 | each of the low seven bytes of an answer is that byte of the challenge, mixed, its halves swapped, and mixed again, with the bytes of the two constants; the top byte is 0xC0 |
| Handshake.ScrambleExamples | include/net/net_connection.hpp:255-259 | two worked answers |
| Handshake.ScrambleCollides | include/net/net_connection.hpp:255-259 | two challenges have the same answer if and only if their low 56 bits agree |
| Handshake.ScrambleRange | include/net/net_connection.hpp:255-259 | a word is an answer to some challenge if and only if its top byte is 0xC0 |
| Handshake.ChallengeRoundTrip | include/net/net_connection.hpp:262-278 | a handshake word written to the wire is read back |
| Handshake.ImageOctets | include/net/net_connection.hpp:262-278 | octet k of a handshake word on the wire is its k-th lowest byte |
| Handshake.ImageRoundTrip | include/net/net_connection.hpp:276-278 | any eight bytes read as a handshake word are that word's image |
| ConnectionObject.Connection.AcceptClient | include/net/net_connection.hpp:27-71 | an accepted connection has precomputed the answer, sends its challenge and reads the answer |
| ConnectionObject.Connection.ConnectToServer | include/net/net_connection.hpp:41-90 | a connected client waits for the challenge and has sent nothing |
| ConnectionObject.Connection.OnSendPosted | include/net/net_connection.hpp:116-131 | is the step `APost`: queue the message and start writing only if the queue was empty |
| ConnectionObject.Connection.OnHeaderWritten | include/net/net_connection.hpp:136-172 | is the step `AWritten` for a header: go on to the body, or to the next message after an empty one, or close |
| ConnectionObject.Connection.OnBodyWritten | include/net/net_connection.hpp:175-199 | is the step `AWritten` for a body |
| ConnectionObject.Connection.OnHeaderRead | include/net/net_connection.hpp:202-231 | is the completed header read: resize and read the body, or deliver with the body left over; close on failure |
| ConnectionObject.Connection.OnBodyRead | include/net/net_connection.hpp:234-252 | is the completed body read: deliver, or close on failure |
| ConnectionObject.Connection.AddToIncomingMessageQueue | include/net/net_connection.hpp:313-325 | appends the assembled message, with its connection on the server side, and reads on |
| ConnectionObject.Connection.OnValidationWritten | include/net/net_connection.hpp:262-274 | is the completed handshake write: a client starts reading; close on failure |
| ConnectionObject.Connection.OnValidationRead | include/net/net_connection.hpp:276-310 | is the completed handshake read; the validation callback runs exactly when the answer is right |
| ConnectionObject.Connection.Guarantee | include/net/net_connection.hpp:116-325 | a connection object of either side, whatever handlers have run, has one write and one read outstanding at most, and has given the incoming queue exactly the messages of its stream, on the server only behind a right answer |
| ConnectionObject.Connection.OnOthersPush | include/net/net_connection.hpp:313-325 | a message another connection puts into the shared queue leaves this one's guarantee as it is |
| Framing.DeframeAppend | include/net/net_connection.hpp:202-252 | the messages of a stream are those of a whole prefix and then those of the rest, read with the last body left over |
| Framing.FrameAt | include/net/net_connection.hpp:136-199 | a frame is four octets of the id and four of the length of the body, lowest first, and the body |
| Framing.DeframePrefix | include/net/net_connection.hpp:136-252 | any prefix of the frames of sent messages reads back as a prefix of them, empty ones repeating the last body |
| Framing.StickyAt | include/net/net_connection.hpp:202-231 | the i-th message read back has the body of the latest non-empty message among the first i+1, or none |
| ConnectionRuns.StepKeeps | include/net/net_connection.hpp:116-325 | every step keeps the connection's invariant, whatever arrives from the peer |
| ConnectionRuns.RunKeeps | include/net/net_connection.hpp:116-325 | the invariant holds in every state of every run |
| ConnectionRuns.OneWriteOutstanding | include/net/net_connection.hpp:116-199 | in every run at most one of all the writes ever started has not ended, exactly one while the queue is non-empty and none has failed, and it is of the front message; none starts before the handshake word is out |
| ConnectionRuns.OneReadOutstanding | include/net/net_connection.hpp:202-325 | in every run at most one of all the reads ever started has not ended |
| ConnectionRuns.CallsFollowOneAnother | include/net/net_connection.hpp:116-252 | in every run a write or read starts only when none is outstanding or in the completion handler of the one that just ended |
| ConnectionRuns.FailedWriterStops | include/net/net_connection.hpp:163-198 | after a failed write the queue never empties and no write starts again |
| ConnectionRuns.HandshakeGate | include/net/net_connection.hpp:276-325 | a server-side connection reports exactly the validation and the messages its input calls for, nothing before the right answer |
| ConnectionRuns.WrongAnswerSilences | include/net/net_connection.hpp:292-296 | after a wrong answer nothing is ever reported or read |
| ConnectionRuns.SocketCloses | include/net/net_connection.hpp:136-310 | a step closes the socket if and only if it is a failed completion, a wrong answer or a close |
| ConnectionRuns.ClosedSocketIsStill | include/net/net_connection.hpp:93-252 | in every run a closed socket stays closed, and no byte goes out or comes in any more |
| ChallengeWords.RealWordsAreLawful | include/net/net_connection.hpp:255-278 | the real handshake words satisfy what the delivery theorems ask |
| ChallengeWords.RightAnswer | include/net/net_connection.hpp:276-296 | of all eight-byte answers exactly one passes the test |
| ChallengeWords.AnswerAccepted | include/net/net_connection.hpp:255-303 | an answer computed from another challenge passes if and only if the two agree on their low 56 bits |
| ChallengeWords.GateOnBytes | include/net/net_connection.hpp:276-325 | something is reported if and only if the first eight bytes are the scrambled challenge; validation comes once and first |
| ChallengeWords.AnswerDecides | include/net/net_connection.hpp:255-310 | in every run, a peer answering for another challenge is let in if and only if the low 56 bits agree, for good |
| Delivery.PairRunKeeps | include/net/net_connection.hpp:56-325 | the global invariant of queue, wire, reader and delivered messages holds in every state of every run of a pair |
| Delivery.HonestAnswerIsRight | include/net/net_connection.hpp:276-303 | an honest client's answer is always the one the server expects |
| Delivery.DeliveredArePosted | include/net/net_connection.hpp:202-325 | the i-th delivered message has the i-th posted header and the body of the latest non-empty message up to it; it is the posted one if and only if that is non-empty or nothing non-empty precedes it |
| Delivery.DeliveryIsFaithful | include/net/net_connection.hpp:116-325 | in every run, with failures anywhere, both sides deliver a prefix of what the other posted, after one validation |
| Delivery.NothingIsLost | include/net/net_connection.hpp:116-252 | the posted bytes not yet delivered are exactly those partly read, in flight and still to be written |
| Delivery.PostedIsConserved | include/net/net_connection.hpp:116-325 | while both sockets are open, in every run and both directions, posted is delivered and then undelivered, in order |
| Delivery.QuietMeansDelivered | include/net/net_connection.hpp:116-252 | when nothing is queued or in flight, everything posted has been delivered |
| DeliveryWitness.EverythingCanBeDelivered | include/net/net_connection.hpp:56-325 | for every challenge and every sequence of messages there is a run in which the client is validated and all of them are delivered, empty ones with the latest non-empty body |
| DeliveryWitness.StaleBodyIsDelivered | include/net/net_connection.hpp:214-223 | for any non-empty message and any empty one after it there is a run in which the empty one is delivered with the body of the first |
| Wire.RecordsAfterEncode | src/Message.pb.cc:219-320 | records written by the encoder are read back |
| Wire.RecordsAppend | src/Message.pb.cc:219-282 | concatenating inputs concatenates their records, whatever the second input does |
| Wire.ReadVarintIsValue | src/Message.pb.cc:219-282 | a varint that is read is the value of its seven-bit digits, lowest first, and ends at the first octet below 128 |
| Wire.NumberIsValue | src/Message.pb.cc:538-600 | a number field is read if and only if one of its first ten octets is below 128, as its value cut to 64 bits |
| Wire.ShortRecords | src/Message.pb.cc:284-320 | short records of each wire type, octet for octet |
| Wire.TruncatedFails | src/Message.pb.cc:219-282 | an input that ends inside a record fails |
| Wire.RejectedTags | src/Message.pb.cc:261-276 | end tags, field number zero and unknown wire types fail |
| Wire.WrittenIsShortest | src/Message.pb.cc:284-320 | of all encodings of a varint, padded ones included, the written one is the only shortest |
| Wire.GuideExamples | src/Message.pb.cc:284-320 | the worked examples of the Protocol Buffers Encoding guide come out byte for byte |
| Wire.VarintSizeIsLength | src/Message.pb.cc:640-675 | the size table gives the encoded length at every 7-bit boundary |
| Wire.RecordSizeIsLength | src/Message.pb.cc:322-359 | the computed size of a field of any wire type is its encoded length |
| Wire.UnknownFieldsSize | src/Message.pb.cc:358 | the loop over unknown fields computes the length of their encoding |
| Codec.ParseAppend | src/Message.pb.cc:219-282 | parsing a concatenation is parsing the second part onto the result of the first, for either message |
| Codec.RoundTrip | src/Message.pb.cc:538-638 | parsing a serialisation gives the message, unknown fields included, for any lawful message type |
| Codec.ConcatenationMerges | src/Message.pb.cc:374-393 | parsing two concatenated serialisations gives the merge of the messages, for any lawful message type |
| Codec.NormalForm | src/Message.pb.cc:219-320 | whatever the input, its parse result is valid and survives being serialised and parsed again |
| RequestCodec.IsLawful | src/Message.pb.cc:219-393 | `RequestMsg` is lawful: reading back its fields is merging, and merging into the default changes nothing |
| RequestCodec.SerializeIsFields | src/Message.pb.cc:284-320 | writing field by field, empty ones left out, is writing the list of records the laws speak of |
| RequestCodec.WrittenInOrder | src/Message.pb.cc:284-320 | the records of a serialisation are the known fields in ascending order, then the unknown ones as they came |
| RequestCodec.RequestMsg.Clear | src/Message.pb.cc:206-217 | back to the default message |
| RequestCodec.RequestMsg.ParseField | src/Message.pb.cc:219-282 | one round of the loop reads one record and applies it, and fails exactly when the record is malformed |
| RequestCodec.RequestMsg.InternalParse | src/Message.pb.cc:219-282 | the parse loop computes the parse of the input onto the current fields, and fails exactly when that does |
| RequestCodec.RequestMsg.InternalSerialize | src/Message.pb.cc:284-320 | writes the non-empty fields in order and then the unknown ones |
| RequestCodec.RequestMsg.ByteSizeLong | src/Message.pb.cc:322-359 | the computed size is the length of the serialisation |
| RequestCodec.RequestMsg.MergeFrom | src/Message.pb.cc:374-393 | merges another message in |
| RequestCodec.RequestMsg.CopyFrom | src/Message.pb.cc:395-400 | becomes the other message, also when it is the same one |
| RequestCodec.LastOneWins | src/Message.pb.cc:219-282 | each known field holds its last well-typed occurrence and the rest is kept in order as unknown fields |
| RespondCodec.IsLawful | src/Message.pb.cc:538-709 | `RespondMsg` is lawful likewise, its 32-bit id included |
| RespondCodec.SerializeIsFields | src/Message.pb.cc:602-638 | writing field by field, default ones left out, is writing the list of records the laws speak of |
| RespondCodec.WrittenInOrder | src/Message.pb.cc:602-638 | the records of a serialisation are the known fields in ascending order, then the unknown ones as they came |
| RespondCodec.RespondMsg.Clear | src/Message.pb.cc:525-536 | back to the default message |
| RespondCodec.RespondMsg.ParseField | src/Message.pb.cc:538-600 | one round of the loop reads one record and applies it, and fails exactly when the record is malformed |
| RespondCodec.RespondMsg.InternalParse | src/Message.pb.cc:538-600 | the parse loop computes the parse of the input onto the current fields, and fails exactly when that does |
| RespondCodec.RespondMsg.InternalSerialize | src/Message.pb.cc:602-638 | writes the non-default fields in order and then the unknown ones |
| RespondCodec.RespondMsg.ByteSizeLong | src/Message.pb.cc:640-675 | the computed size is the length of the serialisation |
| RespondCodec.RespondMsg.MergeFrom | src/Message.pb.cc:690-709 | merges another message in |
| RespondCodec.RespondMsg.CopyFrom | src/Message.pb.cc:711-716 | becomes the other message, also when it is the same one |
| RespondCodec.LastOneWins | src/Message.pb.cc:538-600 | each known field holds its last well-typed occurrence, the id cut to 32 bits, and the rest is kept in order |
| Messages.Int32Survives | include/msg.h:122-145 | a signed 32-bit key id survives the way through the unsigned field |
| Messages.RequestRoundTrip | include/msg.h:61-88 | decoding undoes encoding if and only if the serialisation fits the library's limit |
| Messages.RequestFields | include/msg.h:77-88 | client id, server id, signature and data of a decoded request are what the last fields 1, 2, 3 and 4 of the input hold |
| Messages.RequestIsWritten | include/msg.h:61-75 | an encoded request holds client id, server id, signature and data in the fields 1, 2, 3 and 4 |
| Messages.RespondRoundTrip | include/msg.h:118-145 | the same for replies, signed key id included |
| Messages.RespondFields | include/msg.h:134-145 | client id, server id and data of a decoded reply are what the last fields 2, 3 and 4 hold, and its key id agrees with field 1 modulo 2^32 |
| Messages.RespondIsWritten | include/msg.h:118-132 | an encoded reply holds key id, client id, server id and data in the fields 1, 2, 3 and 4 |
| Messages.RespondNotEmpty | src/Server.cc:122-132 | a reply with a positive key id never serialises to nothing |
| Messages.RequestMsg.EncodeMsg | include/msg.h:72-75 | the serialisation, or nothing if it is too long |
| Messages.RequestMsg.DecodeMsg | include/msg.h:77-88 | after a successful parse client id, server id, signature and data are what the last fields 1, 2, 3 and 4 of the input hold; after a failed one, fields of bounded size |
| Messages.RespondMsg.EncodeMsg | include/msg.h:129-132 | the serialisation, or nothing if it is too long |
| Messages.RespondMsg.DecodeMsg | include/msg.h:134-145 | after a successful parse the fields hold what the last fields 1 to 4 of the input hold, the key id as a signed number |
| ThreadPool.StepKeeps | src/ThreadPool.cc:16-52 | every step of workers, putters and `Stop` keeps lock ownership, control flow, put order and the count of awake workers |
| ThreadPool.NoSleepingOverWork | include/ThreadPool.hpp:43-50 | while running, a sleeping worker implies at least as many awake idle workers as queued tasks; no pop finds the vector empty |
| ThreadPool.StartsLatest | src/ThreadPool.cc:31-32 | each start takes the most recently put pending task |
| ThreadPool.EveryTaskOnce | src/ThreadPool.cc:16-39 | every task put is pending, in execution or finished, exactly once, and starts at most once |
| ThreadPool.TasksGetDone | src/ThreadPool.cc:16-39 | for every number of workers above zero and of tasks there is a run in which all of them are put and finished |
| ThreadPool.StoppedIsQuiet | src/ThreadPool.cc:41-52 | after `Stop` every worker has exited, nothing executes and every task has finished or never started |
| ThreadPool.StopReturnsExactly | src/ThreadPool.cc:41-52 | once the pool has no own step left after the notification, `Stop` has returned if and only if no worker was about to wait when it notified |
| ThreadPool.StopIsHeard | src/ThreadPool.cc:16-52 | if no worker was about to wait at the notification, no worker ever waits again and `Stop` can always go on, whatever is put meanwhile |
| ThreadPool.StopIsMissed | src/ThreadPool.cc:16-52 | a worker about to wait at the notification stays asleep, and `Stop` joining, through any own steps of the pool |
| ThreadPool.Settle | src/ThreadPool.cc:16-52 | from the notification on the pool's own steps come to an end, within a bound |
| ThreadPool.StopCanMissAWorker | src/ThreadPool.cc:43-50 | for every number of workers there is a run at whose end `Stop` waits for a sleeping worker and no own step is left |
| ThreadPoolObject.ThreadPool.constructor | src/ThreadPool.cc:3-14 | the pool starts with the given number of workers at the top of their loop |
| ThreadPoolObject.ThreadPool.Put | include/ThreadPool.hpp:43-50 | queues the next ticket behind the others and wakes the notified worker if it sleeps, in one critical section |
| ThreadPoolObject.ThreadPool.ReadRunning | src/ThreadPool.cc:18 | is the worker's step at the outer loop condition |
| ThreadPoolObject.ThreadPool.Lock | src/ThreadPool.cc:22 | is the worker's step of taking the lock |
| ThreadPoolObject.ThreadPool.TestTasks | src/ThreadPool.cc:23 | is the worker's step at the inner loop condition |
| ThreadPoolObject.ThreadPool.Wait | src/ThreadPool.cc:25 | is the worker's step of going to sleep and releasing the lock |
| ThreadPoolObject.ThreadPool.TestRunning | src/ThreadPool.cc:27-30 | is the worker's step at the second test, leaving if the pool is stopped |
| ThreadPoolObject.ThreadPool.TakeTask | src/ThreadPool.cc:31-33 | is the worker's step of taking the last task; that there is one follows from the object's history |
| ThreadPoolObject.ThreadPool.RunTask | src/ThreadPool.cc:34-37 | is the worker's step of finishing its task |
| ThreadPoolObject.ThreadPool.ClearRunning | src/ThreadPool.cc:43-45 | is the first step of `Stop`, without effect on a second call |
| ThreadPoolObject.ThreadPool.NotifyAll | src/ThreadPool.cc:46 | is the step that wakes every sleeping worker |
| ThreadPoolObject.ThreadPool.JoinNext | src/ThreadPool.cc:47-50 | is one round of joining, or its end |
| ThreadPoolObject.ThreadPool.Round | src/ThreadPool.cc:16-39 | a worker's round that nothing interleaves with runs the most recently put task |
| ThreadPoolObject.ThreadPool.Guarantee | src/ThreadPool.cc:16-52 | a pool object, whatever methods have run, keeps the pool's invariants, task conservation and quiet after `Stop` |
| KeyRegistry.KeyPathInjective | src/Server.cc:56-58 | different clients have different key files |
| KeyRegistry.KeyPathText | src/Server.cc:56-58 | the path of a key file is "seckey/", the client id and "_pubkey.pem" |
| KeyRegistry.RunKeeps | src/Server.cc:62-142 | the directory's, verdicts' and replies' invariants hold in every state of every run without shared client ids in flight |
| KeyRegistry.AgreementIsSound | src/Server.cc:62-142 | accepted requests verify under their own key, which is stored and the only accepted one for its client; refusals are justified; each finished request has exactly the reply due to it |
| KeyRegistry.QuietDirectory | src/Server.cc:89-108 | with no request in flight the directory holds exactly the initial and the accepted keys |
| KeyRegistry.KeptForever | src/Server.cc:89-97 | the first accepted key of a client stays, unchanged |
| KeyRegistry.EveryInterleaving | src/Server.cc:62-142 | in every run, shared client ids included, initial keys are never touched and every request has exactly one reply when finished and none before |
| SharedClientId.SoundnessBreaksExactly | src/Server.cc:62-142 | for any set of requests, sent any number of times under any interleaving on four threads: soundness can break if and only if one has a client id without a key file and verifies with keys sent for that client id, laid over one another, four at most and its own among them if there are four |
| SharedClientId.KeyIsLostExactly | src/Server.cc:62-142 | an accepted key can be lost for good if and only if so, and not all requests for the client id carry one key and verify with it and with an empty file |
| SharedClientId.MixtureBreaksSoundness | src/Server.cc:95-97 | two streams open at once leave a mixture of both keys, and a request that verifies with it breaks soundness |
| KeyTraffic.FilesStayLaid | src/Server.cc:89-108 | in every such run every file that is not initial holds keys of distinct handlers laid over one another, who all ran, with those that may still write, when it was created |
| KeyTraffic.OverlayParts | src/Server.cc:95-97 | a write leaves its data at the start of the file, and behind it what the file had there |
| KeyTraffic.LaidAt | src/Server.cc:95-97 | after several writes each byte is that of the last key long enough to have one there |
| KeySchedules.AcceptedThenOverwritten | src/Server.cc:89-108 | a request that verifies can be accepted and its key then be replaced by the other's, or removed if the other is refused |
| KeySchedules.AcceptedUnderLaidKeys | src/Server.cc:89-108 | a request that verifies with keys laid over one another can be accepted with a file that holds just that |
| KeySchedules.TwoKeysMix | src/Server.cc:89-97 | two requests for one client id can leave the second, shorter key followed by the tail of the first |
| KeySchedules.OrphanWritesNothing | src/Server.cc:95-108 | a refused request removes the file another one has open, and what that one writes reaches no file, not even one made under the name since |
| KeySchedules.AcceptedUnderEmptyFile | src/Server.cc:89-108 | a request that verifies with an empty file can be accepted while another stream has just emptied it |
| KeySchedules.RetryLosesKey | src/Server.cc:89-108 | a request that does not verify with an empty file can be refused and remove the key of the other, accepted one, the same request sent twice included |
| Server.PopString | src/Server.cc:46-52 | popping byte by byte gives the body reversed and leaves it empty |
| Server.PushString | src/Server.cc:133-136 | pushing a string backwards gives its reversal as body, with the right size |
| Server.ReverseTwice | src/Server.cc:44-52 | popping everything undoes pushing backwards |
| Server.AgreementIsHandled | src/Server.cc:62-142 | the interleaved handler steps taken in a row are the sequential agreement, with its one reply |
| Server.Server.ParseMsgImpl | src/Server.cc:44-60 | the request decoded from the unstacked body, and its key file |
| Server.Server.SeckeyAgree | src/Server.cc:62-142 | the directory and the reply are those of the sequential agreement; nothing is sent on refusal |
| Server.Server.Work | src/Server.cc:162-192 | an agreement request gets exactly one reply, any other message none and leaves the directory alone |
| MessagePump.StepKeeps | include/net/net_client_server.hpp:245-258 | no pump step is undefined, and each keeps the pump's invariant |
| MessagePump.HandledInOrder | include/net/net_client_server.hpp:245-258 | with any number of connections and one consumer: no pop of an empty queue, batches within their limit, and per connection received is handled and then queued, in order |
| MessagePump.ReceiveQueues | include/net/net_connection.hpp:313-325 | a received message is queued behind all others |
| MessagePump.MessagesGetHandled | include/net/net_client_server.hpp:245-258 | whatever is received can all be handled, in that order |
| ServerInterface.ServerInterface.Update | include/net/net_client_server.hpp:245-258 | handles at most the limit, in queue order, losing nothing that arrives meanwhile, and stops early only on an empty queue; all ever taken off the queue has been handled |
| ServerInterface.ServerInterface.OnAccept | include/net/net_client_server.hpp:161-194 | an approved connection is appended with the counter's id; ids increase within 10000 up to the counter for fewer than 2^32 - 10000 approvals |
| ServerInterface.ServerInterface.MessageClient | include/net/net_client_server.hpp:198-215 | sends once to an open client; never changes the container |
| ServerInterface.ServerInterface.SendToOpen | include/net/net_client_server.hpp:222-235 | the loop sends once to each client that is open when it comes to it, but for the ignored one, and clears exactly the others, though sockets close meanwhile |
| ServerInterface.ServerInterface.MessageAllClients | include/net/net_client_server.hpp:218-242 | every client open when the loop comes to it, but for the ignored one, is sent the message exactly once; the new container lists, by increasing old places, exactly the clients found open, which without closings meanwhile are the open ones |
| ServerInterface.ErasedMarks | include/net/net_client_server.hpp:230-241 | clearing references and erasing the cleared ones leaves the other clients in order |
| ServerInterface.KeepsPlaces | include/net/net_client_server.hpp:237-241 | what is kept is at the kept places, in increasing order, each of them once |
| ServerInterface.KeepNumbered | include/net/net_client_server.hpp:218-242 | removing any clients keeps ids increasing and in range |
| Reply.StringArrives | src/Server.cc:44-52 | a stacked string is unstacked as itself from the delivered message if and only if it is non-empty or nothing non-empty was posted before |
| Reply.RefusalOnTheWire | src/Server.cc:162-192 | a refusal is the octets 3, 0, 0, 0, 0, 0, 0, 0 |
| Reply.AgreementOnTheWire | src/Server.cc:122-140 | an agreement has the id 0 and its encoding, last octet first |
| Reply.ReplyArrives | src/Server.cc:122-140 | in every run of server and client a delivered reply decodes to the very structure the server encoded |
| Reply.AgreementReplyArrives | src/Server.cc:109-142 | the reply to an agreement with any request, if delivered, is the failure message or decodes to the agreed data |
| Reply.RequestArrives | src/Server.cc:44-55 | a delivered request decodes to what the client encoded, except that an all-empty one is itself only if nothing non-empty precedes it |
| Reply.ExchangeIsFaithful | src/Server.cc:44-142 | request and uninterrupted agreement together: what the client reads back is a refusal exactly when its own request had a key file or does not verify, and otherwise the secret for the key and the client id it sent |
| Conversation.JointRunKeeps | src/Server.cc:44-192 | in every joint run of client, connection, handlers, directory and other clients, connection and registry run as they do alone, each delivered message is handled once at most, and what the server has posted are replies to them, each once at most |
| Conversation.ConversationIsFaithful | src/Server.cc:44-192 | in every joint run each message the client reads answers a request it posted, no two the same one: the failure message, the request then not verifying or the client id's key being kept, or the secret for the key and client id it sent, the request then verifying and its key being the one in the directory |
| ConversationWitness.AnswerCanBeRead | src/Server.cc:44-192 | for every challenge, directory and non-empty request that fits there is a joint run in which the client posts it and reads the answer: id 3 if there is a key file or the signature over the hash does not verify, else id 0 and the secret for its key under key id 12 |

## Left out

- Sockets, name resolution and the io service: replaced by one byte channel per direction, reads and writes that complete or fail, and handlers that run one at a time.
- OpenSSL: hashing, signature verification and encryption are uninterpreted functions; the random key is a parameter.
- Logging, console output and the exception a second logger of the same name would throw on the failure paths of `SeckeyAgree`.
- Waiting in `TSQueue` (`include/net/net_tsqueue.hpp:75-80`) and `Update` with waiting.
- Fairness of the scheduler: when `Stop` returns is stated by what steps are left, not by time.
- The order in which handlers run and reply: messages are posted to a pool of four threads, so only per-handler steps are ordered. That four run at a time at most is used where it decides (`KeyTraffic`).
- Groups (wire type 3) in unknown fields: recognised by the parser and reported as not modelled.
- Inputs of 2^31 bytes or more to the protobuf parser, arenas, swapping and reflection.
- Messages.RequestMsg.DecodeMsg: after a failed parse, which the source ignores, the contents of the fields are not specified, because the library does not promise them.
- Messages.RespondMsg.DecodeMsg: after a failed parse the contents of the fields are not specified, likewise.
- RequestCodec.RequestMsg.ByteSizeLong: for fields shorter than 2^32 bytes, since the generated code sizes fields in 32 bits.
- RespondCodec.RespondMsg.ByteSizeLong: for fields shorter than 2^32 bytes, likewise.
- NetMessage.Message.Pop: popping more bytes than the body has is undefined in the source, so it is a precondition here.
- ServerInterface.ServerInterface.MessageClient: for a null client the server's own disconnect hook dereferences it (`include/Server.h:38-41`), which is undefined; the model skips the hook.
- Exceptions thrown by tasks of the worker pool, and task values: a task is its ticket number.
- Verification and logout requests as protocols: they are parsed and succeed without reply.
- MySQL access, shared memory, the in-memory key table, random key generation, factories, the client interface and `main`.
