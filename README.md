# Logging layer of ign-transport, modelled in Dafny

This project models three pieces of ign-transport's logging layer, as their tests pin them down.

- **MessageInfo** is the metadata attached to a delivered message: topic, type and partition. It also decodes the combined `"@<partition>@<topic>"` name used on the wire (module `Transport`, file `transport.dfy`).
- **Log** is an append-only store of records behind an open/closed handle. **MsgIter** is its forward-only cursor, which ends at a sentinel equal to a default-constructed iterator (module `TransportLog`, file `log.dfy`).
- **Recorder** subscribes to exact topic names and to topic patterns. While recording, it appends every delivered message whose topic it captures to a Log (module `LogRecorder`, file `recorder.dfy`).

The modules that support these three:

- `Patterns` (`patterns.dfy`) holds the topic patterns: a full-string matcher for literal characters, `.` and `.*`.
- `Chirps` (`chirps.dfy`) is the test publisher. It sends chirp values 1 to n, round-robin over a list of topics.
- `Wrappers` (`wrappers.dfy`) holds `Option`.

The test programs are modelled as scenario methods:

- `MessageInfoTest` (`message_info_test.dfy`);
- `LogTest` (`log_test.dfy`);
- `RecorderTest` (`recorder_test.dfy`).

Each scenario builds the test's objects, makes the test's calls on them in the test's order, and returns what the test's expectations read. Its contract states that every expectation holds, for all inputs where the test is parameterised.

The recorder scenarios start from an arbitrary filesystem, passed in as the files that already exist. Like the tests, they remove the log file before recording and again at the end. Their contracts also state that the filesystem ends up as it started, minus the log file. The forked chirper and the sleeps are not calls; see "## Left out".

Files live on an explicit `Disk` object, a map from path to `StoredLog(version, records)`.

- A path can be opened if it is non-empty and does not end in `/`. So `"///////////"` is rejected.
- `":memory:"` is a private in-memory store.
- Reopening a file sees the records that an earlier handle wrote, which is how the recorder tests read back their log.

Message delivery is a sequence of calls to `Recorder.OnMessage`. The chirper process, the sleeps and the thread that runs subscription callbacks become the points between those calls.

Policies chosen where the tests leave a choice:

- `SetTopicAndPartition` on malformed input fails closed: partition and topic are both reset to `""`. The tests only use fresh objects, and they cannot tell this apart from leaving the old values in place.
- `AddTopic` while recording is rejected with `AlreadyRecording`.
- `Start` reports the errors `AlreadyRecording`, `EmptyCriteria` (nothing registered) and `LogError` (the destination cannot be opened), checked in that order.
- A topic name without a leading `/` gets one prepended, as the transport does.
- Queries return records in stored (insertion) order. `FilterTimeOrdered` proves that a time-ordered store therefore yields time-ordered query results.

## Model

| member | source | states |
|---|---|---|
| Transport.IndexOf | src/MessageInfo_TEST.cc:67-90 | the index found holds the character searched for, and no earlier position from the start offset holds it; None means it does not occur from the offset on |
| Transport.Decompose | src/MessageInfo_TEST.cc:63-92 | a successful decode yields two `/`-led, `@`-free segments whose recombination `"@"+P+"@"+T` is exactly the input |
| Transport.DecomposeCombine | src/MessageInfo_TEST.cc:66-69 | round trip: encoding any well-formed partition and topic and decoding gives them back |
| Transport.DecomposeExactly | src/MessageInfo_TEST.cc:63-92 | decoding yields (P, T) if and only if P and T are segments and the input is `"@"+P+"@"+T` |
| Transport.DecomposeRejects | src/MessageInfo_TEST.cc:72-91 | decoding fails if and only if no pair of segments encodes to the input |
| Transport.PartitionAndTopic | src/MessageInfo_TEST.cc:65-91 | the two decoded fields are empty together or set together; when set they decode the input |
| Transport.MessageInfo.constructor | src/MessageInfo_TEST.cc:29-30 | a new MessageInfo has empty topic, type and partition |
| Transport.MessageInfo.Copy | src/MessageInfo_TEST.cc:98-105 | the copy has the original's topic, type and partition |
| Transport.MessageInfo.Topic | src/MessageInfo_TEST.cc:30-34 | definition: the topic field as last set |
| Transport.MessageInfo.Type | src/MessageInfo_TEST.cc:42-46 | definition: the type field as last set |
| Transport.MessageInfo.Partition | src/MessageInfo_TEST.cc:54-58 | definition: the partition field as last set |
| Transport.MessageInfo.SetTopic | src/MessageInfo_TEST.cc:32-34 | Topic() returns the value set; type and partition are untouched |
| Transport.MessageInfo.SetType | src/MessageInfo_TEST.cc:44-46 | Type() returns the value set; topic and partition are untouched |
| Transport.MessageInfo.SetPartition | src/MessageInfo_TEST.cc:56-58 | Partition() returns the value set; topic and type are untouched |
| Transport.MessageInfo.SetTopicAndPartition | src/MessageInfo_TEST.cc:63-92 | reports success exactly when the input decodes; partition and topic become the decoded pair, or both empty; type is untouched |
| MessageInfoTest.MalformedRejected | src/MessageInfo_TEST.cc:72-91 | input without a leading `@`, without a second `@`, or ending in `@` does not decode |
| MessageInfoTest.TopicTest | src/MessageInfo_TEST.cc:27-35 | a fresh topic is empty and reads back as the value set |
| MessageInfoTest.TypeTest | src/MessageInfo_TEST.cc:39-47 | a fresh type is empty and reads back as the value set |
| MessageInfoTest.PartitionTest | src/MessageInfo_TEST.cc:51-59 | a fresh partition is empty and reads back as the value set |
| MessageInfoTest.DecodeFresh | src/MessageInfo_TEST.cc:65-91 | decoding any string on a fresh object gives the (partition, topic) pair of PartitionAndTopic |
| MessageInfoTest.SetTopicAndPartitionTest | src/MessageInfo_TEST.cc:63-92 | `"@/a_partition@/b_topic"` gives ("/a_partition", "/b_topic"); the three malformed inputs give ("", "") |
| MessageInfoTest.CopyConstructorTest | src/MessageInfo_TEST.cc:96-106 | the original keeps its decoded fields and the copy has the same ones |
| TransportLog.Filter | log/src/Log_TEST.cc:103-136 | a query result is never longer than the store |
| TransportLog.FilterKeeps | log/src/Log_TEST.cc:131-136 | a record is in the result if and only if it is in the store and selected |
| TransportLog.FilterAppend | log/src/Log_TEST.cc:117-136 | selecting from a concatenation is the concatenation of the selections, so stored order is kept |
| TransportLog.FilterSnoc | log/src/Log_TEST.cc:72-84 | filtering one more record appends it exactly when it is selected |
| TransportLog.FilterAll | log/src/Log_TEST.cc:86-94 | selecting every record returns the store unchanged |
| TransportLog.FilterNone | log/src/Log_TEST.cc:103-105 | selecting no record returns nothing |
| TransportLog.FilterTimeOrdered | log/src/Log_TEST.cc:72-94 | a time-ordered store gives time-ordered query results |
| TransportLog.TopicQueryExactly | log/src/Log_TEST.cc:103-136 | a topic query returns exactly the stored records whose topic is in the set; the empty set returns nothing |
| TransportLog.Disk.Holding | log/test/integration/recorder.cc:80-81 | the filesystem a test finds, with whatever files earlier runs left behind |
| TransportLog.Disk.Remove | log/test/integration/recorder.cc:80-81 | `removeFile` deletes exactly that path and keeps every other file |
| TransportLog.MsgIter.constructor | log/src/Log_TEST.cc:60 | the default iterator is the end sentinel over nothing |
| TransportLog.MsgIter.Equals | log/src/Log_TEST.cc:88-94 | an iterator equals the sentinel if and only if it is at its end |
| TransportLog.MsgIter.Current | log/src/Log_TEST.cc:89-92 | definition: `iter->Data()`, `Type()` and `Topic()` read the record at the cursor; it can be read only before the end |
| TransportLog.MsgIter.Advance | log/src/Log_TEST.cc:90-93 | `++` moves to the next record and stays put at the end |
| TransportLog.Log.constructor | log/src/Log_TEST.cc:26 | a new handle is closed and empty |
| TransportLog.Log.Open | log/src/Log_TEST.cc:24-35 | succeeds if and only if the handle is closed and the destination can be opened; it then exposes the destination's existing records under version "0.1.0"; on failure nothing changes |
| TransportLog.Log.Close | log/test/integration/recorder.cc:96-102 | closing keeps the records and the destination |
| TransportLog.Log.InsertMessage | log/src/Log_TEST.cc:38-51 | on an open log, returns true and appends exactly one record with the given time, topic, type and first `len` payload bytes; a file log's disk entry is updated; on a closed log nothing changes |
| TransportLog.Log.Version | log/src/Log_TEST.cc:140-145 | an open log reports "0.1.0" |
| TransportLog.Log.AllMessages | log/src/Log_TEST.cc:54-95 | the cursor starts at the first of all stored records, in stored order |
| TransportLog.Log.QueryMessages | log/src/Log_TEST.cc:98-137 | the cursor runs over exactly the stored records whose topic is in the set, in stored order |
| LogTest.OpenMemoryDatabase | log/src/Log_TEST.cc:24-28 | opening ":memory:" succeeds |
| LogTest.OpenImpossibleFileName | log/src/Log_TEST.cc:31-35 | opening "///////////" fails |
| LogTest.InsertMessageSucceeds | log/src/Log_TEST.cc:38-51 | opening an in-memory log succeeds and inserting into it returns true |
| LogTest.AllMessagesNone | log/src/Log_TEST.cc:54-61 | opening an in-memory log succeeds and its AllMessages equals the sentinel |
| LogTest.InsertMessageGetMessages | log/src/Log_TEST.cc:64-95 | the open and both inserts succeed; the cursor then yields the first payload, then the second, then equals the sentinel |
| LogTest.QueryMessagesByTopicNone | log/src/Log_TEST.cc:98-106 | opening succeeds and a query with no topics equals the sentinel at once |
| LogTest.Insert2Get1MessageByTopic | log/src/Log_TEST.cc:109-137 | the open and both inserts succeed; querying one of two topics yields only that topic's payload, then the sentinel |
| LogTest.CheckVersion | log/src/Log_TEST.cc:140-145 | opening succeeds and the log's version is "0.1.0" |
| LogTest.FillMemoryLog | log/src/Log_TEST.cc:66-84 | inserting a batch into a fresh in-memory log stores exactly that batch |
| LogTest.Drain | log/src/Log_TEST.cc:86-94 | advancing a cursor until it equals the sentinel reads its whole result, in order, and leaves the cursor at its end |
| LogTest.InsertAllGetAll | log/src/Log_TEST.cc:64-95 | for any batch, AllMessages reads back exactly the batch inserted, then equals the sentinel |
| LogTest.InsertAllQueryTopics | log/src/Log_TEST.cc:109-137 | for any batch and topic set, the query reads back exactly the batch's records on those topics, in order, then equals the sentinel |
| Patterns.Compile | log/test/integration/recorder.cc:278-284 | definition: reads a regex source. `.*` becomes "any run", `.` becomes "any character", and every other character stands for itself. Any other regex syntax is therefore read literally: `a*` is the literal `a` followed by the literal `*` |
| Patterns.CompileLiteral | log/test/integration/recorder.cc:276-279 | source text with no `.` compiles to its characters taken literally, whatever follows it |
| Patterns.Matches | log/test/integration/recorder.cc:215-222 | definition: `std::regex_match`, which matches the whole topic name, not a substring |
| Patterns.AnyRunMatchesAll | log/test/integration/recorder.cc:282-285 | `.*` matches every topic |
| Patterns.LiteralPrefix | log/test/integration/recorder.cc:276-279 | a literal prefix matches exactly the strings that start with it and whose rest matches the remaining pattern |
| Patterns.AnyRunPrefix | log/test/integration/recorder.cc:276-279 | a leading `.*` matches exactly when the rest matches some suffix |
| Patterns.SurroundedLiteral | log/test/integration/recorder.cc:276-279 | `.*w.*` matches a topic if and only if the topic contains `w` |
| LogRecorder.Normalize | log/test/integration/recorder.cc:67-70 | the recorded topic name starts with `/`; a name already starting with `/` is kept as is, and otherwise one `/` is prepended |
| LogRecorder.Captures | log/test/integration/recorder.cc:104-117 | definition: the capture rule. A topic is recorded when it is a registered name or matches a registered pattern |
| LogRecorder.Wanted | log/test/integration/recorder.cc:245-258 | definition: the capture rule applied to a delivered record's topic |
| LogRecorder.Recorder.constructor | log/test/integration/recorder.cc:72 | a new recorder has no criteria and is not recording |
| LogRecorder.Recorder.AddTopic | log/test/integration/recorder.cc:73-78 | while idle, adds the normalised name and reports no error; while recording, rejects and changes nothing |
| LogRecorder.Recorder.AddPattern | log/test/integration/recorder.cc:227-228 | while idle, appends the pattern and reports no error; while recording, rejects and changes nothing |
| LogRecorder.Recorder.Start | log/test/integration/recorder.cc:80-84 | reports AlreadyRecording, EmptyCriteria, LogError or NoError, in that order of checks; on success it opens the log and starts capturing. A file log writes its own entry and leaves every other file untouched; an in-memory log leaves the disk unchanged. On error nothing changes: the log keeps its open flag, destination, version and records, and the disk is unchanged |
| LogRecorder.Recorder.OnMessage | log/test/integration/recorder.cc:86-94 | while recording, appends the message exactly once if its topic is captured and keeps the invariant that the recorded suffix is the captured subsequence of what was heard. Only the log's own file entry is rewritten; every other file is kept. When idle, it changes nothing |
| LogRecorder.Recorder.Stop | log/test/integration/recorder.cc:96-97 | recording ends with the records and destination unchanged; stopping twice is harmless |
| LogRecorder.RecordedAreCaptured | log/test/integration/recorder.cc:104-117 | a message is recorded if and only if it was delivered and its topic is a registered name or matches a registered pattern |
| Chirps.Value | log/test/integration/recorder.cc:55-61 | definition: `ParseFromString` followed by `msg.data()`, reading the payload's base-256 digits |
| Chirps.Chirp | log/test/integration/recorder.cc:44-61 | a chirp is on its topic with the chirp type, and its payload is non-empty and parses back to its value |
| Chirps.Stream | log/test/integration/recorder.cc:87-88 | definition: what `BeginChirps` publishes. Rounds 1 to numChirps, each round one chirp per topic, in topic order |
| Chirps.Digits | log/test/integration/recorder.cc:51-55 | every chirp payload is non-empty |
| Chirps.ValueOfDigits | log/test/integration/recorder.cc:51-61 | decoding a chirp payload gives back its value |
| Chirps.Round | log/test/integration/recorder.cc:87-88 | one chirp round has one message per topic |
| Chirps.RoundAt | log/test/integration/recorder.cc:87-88 | message j of a round is the round's value on topic j |
| Chirps.StreamAt | log/test/integration/recorder.cc:57-61 | the stream has numChirps × \|topics\| messages, and message i carries value i / \|topics\| + 1 on topic i mod \|topics\| |
| Chirps.LastChirp | log/test/integration/recorder.cc:196-205 | the last message published is value numChirps on the last topic |
| Chirps.StreamTopics | log/test/integration/recorder.cc:104-117 | every message of the stream is on one of the chirped topics |
| Chirps.FilterRound | log/test/integration/recorder.cc:215-222 | capturing by topic from one round gives the round over the captured topics |
| Chirps.FilterStream | log/test/integration/recorder.cc:251-270 | capturing by topic from the whole stream gives the stream over the captured topics alone |
| RecorderTest.VerifyMessage | log/test/integration/recorder.cc:37-62 | definition: the per-record checks. Non-empty data and type, an accepted topic, the chirp type, and chirp value msgCount / numTopics + 1 |
| RecorderTest.InList | log/test/integration/recorder.cc:104-117 | definition: the exact-topic test's VerifyTopic, membership in the topic list |
| RecorderTest.MatchesTopic | log/test/integration/recorder.cc:245-254 | definition: the pattern test's VerifyTopic, `regex_match` against the pattern |
| RecorderTest.DeliverOne | log/test/integration/recorder.cc:86-94 | one publication reaches the callback through a filled-in MessageInfo. The record is appended exactly when recording and captured, and only the log's own file entry changes |
| RecorderTest.Deliver | log/test/integration/recorder.cc:86-94 | while recording, the log gains exactly the captured messages of the sequence, in order. Only the log's own file entry changes, and it mirrors the new records. When idle, neither the log nor the disk changes |
| RecorderTest.AddTopics | log/test/integration/recorder.cc:73-78 | the registered topics become exactly the old ones plus the listed topics, and the patterns stay |
| RecorderTest.RecordToFile | log/test/integration/recorder.cc:80-97 | starting, delivering and stopping leaves a file holding exactly the captured messages, in arrival order, under version "0.1.0"; no other file changes |
| RecorderTest.CountVerified | log/test/integration/recorder.cc:99-131 | reopening the log succeeds; the loop counts every record, and `verified` holds if and only if each record passes VerifyMessage; the filesystem is unchanged |
| RecorderTest.StreamVerifies | log/test/integration/recorder.cc:36-61 | every chirp of the stream passes VerifyMessage at its own position |
| RecorderTest.BeginRecordingTopicsBeforeAdvertisement | log/test/integration/recorder.cc:62-134 | from any existing files: Start reports no error, the log reopens, every record verifies, and the count is numChirps × \|topics\|. Afterwards the filesystem is what it was, minus the log file |
| RecorderTest.BeginRecordingFooBarBeforeAdvertisement | log/test/integration/recorder.cc:69-86 | with "/foo", "/bar" and 100 chirps, 200 records are counted and all verify |
| RecorderTest.ReadLast | log/test/integration/recorder.cc:182-205 | the walk reads exactly the stored records, checks every record's type, and ends with the last record's payload; the filesystem is unchanged |
| RecorderTest.RecordLate | log/test/integration/recorder.cc:158-177 | with chirps delivered before any topic is registered, the log file ends up holding exactly the stream after the missed chirps |
| RecorderTest.BeginRecordingTopicsAfterAdvertisement | log/test/integration/recorder.cc:139-208 | however many chirps are missed before Start, the log holds exactly the rest of the stream, a suffix of it. Every record has the chirp type, the last carries value numChirps, and the filesystem ends as it started minus the log file |
| RecorderTest.SinglePattern | log/test/integration/recorder.cc:227-228 | a recorder with one pattern and no names captures exactly the topics that the pattern matches |
| RecorderTest.RecordPattern | log/test/integration/recorder.cc:227-243 | with one pattern registered, the log file holds exactly the chirps whose topic the pattern captures; no other file changes |
| RecorderTest.CountMatching | log/test/integration/recorder.cc:213-220 | the count is the number of chirp topics the pattern matches |
| RecorderTest.PatternStream | log/test/integration/recorder.cc:245-270 | the log holds the stream over the matching topics: numChirps × matches records, each passing VerifyMessage with the pattern as topic check |
| RecorderTest.RecordPatternBeforeAdvertisement | log/test/integration/recorder.cc:211-273 | from any existing files: Start reports no error, the log reopens, every record verifies, and the count is numChirps × numMatchingTopics. Afterwards the filesystem is what it was, minus the log file |
| RecorderTest.FooTopics | log/test/integration/recorder.cc:276-279 | `.*foo.*` selects exactly "/foo1" and "/foo2" of the four chirp topics |
| RecorderTest.AllTopics | log/test/integration/recorder.cc:282-285 | `.*` selects all four chirp topics |
| RecorderTest.BeginRecordingPatternBeforeAdvertisement | log/test/integration/recorder.cc:276-279 | with `.*foo.*` and 100 chirps: 2 matching topics and 200 verified records |
| RecorderTest.BeginRecordingAllBeforeAdvertisement | log/test/integration/recorder.cc:282-285 | with `.*` and 100 chirps: 4 matching topics and 400 verified records |

## Left out

- `std::ios_base` open modes passed to `Log::Open`: every open here reads and appends.
- The storage engine behind a log: the schema file, the schema-location environment variable set in `main`, and write failures. A store is a record sequence plus a version string, and writes always succeed.
- Processes, threads and time: the forked chirper, `sleep_for`, waiting for callbacks, and the floating-point computation of `numChirps` from a duration. Delivery is an explicit call sequence, and `numChirps` and the number of chirps missed before `Start` are parameters.
- Protobuf encoding: a chirp payload is the little-endian base-256 digits of its value, and the type name is the constant `"ignition.msgs.Int32"`.
- The `std::regex` language beyond literal characters, `.` and `.*`: the only patterns the tests use are `.*foo.*` and `.*`. Other regex syntax (`*` after anything but `.`, classes, alternation, anchors) is read as literal characters.
- Re-sorting query results by timestamp: queries return stored order. `TransportLog.FilterTimeOrdered` covers the ordered-insertion case the tests use.
- `common::Time` arithmetic: a time is a (seconds, nanoseconds) pair, compared lexicographically.
- Validation of topic names beyond the leading `/`.
- The `example/*.cc` programs: they demonstrate callback lifetime and signal handling, and have no sequential behaviour to state.
- Transport.MessageInfo.SetTopicAndPartition: on malformed input the model resets both fields to empty. The tests only decode on fresh objects, so keeping the previous values would fit them equally well.
- LogRecorder.Recorder.AddTopic: registering while recording is rejected. The tests register only before `Start`.
