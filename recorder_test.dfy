/**
 * The recorder integration tests. A chirper's publications are an explicit
 * sequence of deliveries to the recorder's callback; the waits for the
 * chirper process and for in-flight callbacks are the points between calls.
 * Each test returns what its expectations read, and its contract says they
 * all hold.
 */
module RecorderTest {
  import opened TransportLog
  import opened Patterns
  import opened Transport
  import opened LogRecorder
  import opened Chirps

  /** The topics the pattern tests chirp on. */
  const CHIRP_TOPICS: seq<string> := ["/foo1", "/foo2", "/bar1", "/bar2"]

  /** The checks made on the record a cursor is at, when `msgCount` records
      came before it and chirps arrive round-robin over `numTopics` topics. */
  predicate VerifyMessage(r: Record, msgCount: nat, numTopics: nat, verifyTopic: string -> bool)
    requires numTopics > 0
  {
    |r.data| > 0 && |r.msgType| > 0 && verifyTopic(r.topic) &&
    r.msgType == CHIRP_TYPE && Value(r.data) == msgCount / numTopics + 1
  }

  function InList(topics: seq<string>): string -> bool
  {
    t => t in topics
  }

  function MatchesTopic(pattern: Pattern): string -> bool
  {
    t => Matches(pattern, t)
  }

  /** The transport hands each published message, in order, to the
      recorder's subscription callback. */
  method Deliver(recorder: Recorder, msgs: seq<Record>)
    requires recorder.Valid()
    modifies recorder, recorder.log, recorder.log.disk
    ensures recorder.Valid()
    ensures recorder.topics == old(recorder.topics) && recorder.patterns == old(recorder.patterns)
    ensures recorder.recording == old(recorder.recording) && recorder.base == old(recorder.base)
    ensures recorder.log.dest == old(recorder.log.dest)
    ensures recorder.heard == if recorder.recording then old(recorder.heard) + msgs else old(recorder.heard)
    ensures recorder.log.records ==
      old(recorder.log.records) + (if recorder.recording then Filter(msgs, Wanted(recorder.topics, recorder.patterns)) else [])
    ensures recorder.log.disk.files ==
      if recorder.recording && recorder.log.dest.File?
      then old(recorder.log.disk.files)[recorder.log.dest.path := StoredLog(SCHEMA_VERSION, recorder.log.records)]
      else old(recorder.log.disk.files)
  {
    ghost var wanted := Wanted(recorder.topics, recorder.patterns);
    for i := 0 to |msgs|
      invariant recorder.Valid()
      invariant recorder.topics == old(recorder.topics) && recorder.patterns == old(recorder.patterns)
      invariant recorder.recording == old(recorder.recording) && recorder.base == old(recorder.base)
      invariant recorder.log.dest == old(recorder.log.dest)
      invariant recorder.heard == if recorder.recording then old(recorder.heard) + msgs[..i] else old(recorder.heard)
      invariant recorder.log.records ==
        old(recorder.log.records) + (if recorder.recording then Filter(msgs[..i], wanted) else [])
      invariant recorder.log.disk.files ==
        if recorder.recording && recorder.log.dest.File?
        then old(recorder.log.disk.files)[recorder.log.dest.path := StoredLog(SCHEMA_VERSION, recorder.log.records)]
        else old(recorder.log.disk.files)
    {
      DeliverOne(recorder, msgs[i]);
      assert msgs[..i + 1] == msgs[..i] + [msgs[i]];
      FilterSnoc(msgs[..i], msgs[i], wanted);
    }
    assert msgs[..|msgs|] == msgs;
  }

  /** One delivery: the transport fills a MessageInfo for the message and
      invokes the recorder's callback with it. */
  method DeliverOne(recorder: Recorder, msg: Record)
    requires recorder.Valid()
    modifies recorder, recorder.log, recorder.log.disk
    ensures recorder.Valid()
    ensures recorder.topics == old(recorder.topics) && recorder.patterns == old(recorder.patterns)
    ensures recorder.recording == old(recorder.recording) && recorder.base == old(recorder.base)
    ensures recorder.log.dest == old(recorder.log.dest)
    ensures recorder.heard == if recorder.recording then old(recorder.heard) + [msg] else old(recorder.heard)
    ensures recorder.log.records ==
      if recorder.recording && Wanted(recorder.topics, recorder.patterns)(msg)
      then old(recorder.log.records) + [msg]
      else old(recorder.log.records)
    ensures recorder.log.disk.files ==
      if recorder.recording && Wanted(recorder.topics, recorder.patterns)(msg) && recorder.log.dest.File?
      then old(recorder.log.disk.files)[recorder.log.dest.path := StoredLog(SCHEMA_VERSION, recorder.log.records)]
      else old(recorder.log.disk.files)
  {
    var info := new MessageInfo();
    info.SetTopic(msg.topic);
    info.SetType(msg.msgType);
    recorder.OnMessage(info, msg.data, msg.time);
  }

  method AddTopics(recorder: Recorder, topics: seq<string>)
    requires recorder.Valid() && !recorder.recording
    requires forall i :: 0 <= i < |topics| ==> |topics[i]| > 0 && topics[i][0] == '/'
    modifies recorder
    ensures recorder.Valid() && !recorder.recording
    ensures recorder.patterns == old(recorder.patterns)
    ensures forall i :: 0 <= i < |topics| ==> topics[i] in recorder.topics
    ensures recorder.topics == old(recorder.topics) + set i | 0 <= i < |topics| :: topics[i]
    ensures |topics| > 0 ==> recorder.topics != {}
  {
    for i := 0 to |topics|
      invariant recorder.Valid() && !recorder.recording
      invariant recorder.patterns == old(recorder.patterns)
      invariant forall j :: 0 <= j < i ==> topics[j] in recorder.topics
      invariant recorder.topics == old(recorder.topics) + set j | 0 <= j < i :: topics[j]
    {
      var _ := recorder.AddTopic(topics[i]);
      assert (set j | 0 <= j < i + 1 :: topics[j]) == (set j | 0 <= j < i :: topics[j]) + {topics[i]};
    }
    if |topics| > 0 {
      assert topics[0] in recorder.topics;
    }
  }

  /** Starts recording into a new file, delivers `msgs`, and stops: the file
      then holds exactly the captured messages, in arrival order. */
  method RecordToFile(recorder: Recorder, logName: string, msgs: seq<Record>) returns (started: RecorderError)
    requires recorder.Valid() && !recorder.recording
    requires recorder.topics != {} || recorder.patterns != []
    requires PathOpenable(logName) && logName != MEMORY_NAME && logName !in recorder.log.disk.files
    modifies recorder, recorder.log, recorder.log.disk
    ensures recorder.Valid() && !recorder.recording
    ensures recorder.topics == old(recorder.topics) && recorder.patterns == old(recorder.patterns)
    ensures started == NoError
    ensures recorder.log.disk.files == old(recorder.log.disk.files)[logName :=
              StoredLog(SCHEMA_VERSION, Filter(msgs, Wanted(recorder.topics, recorder.patterns)))]
  {
    started := recorder.Start(logName);
    assert recorder.log.records == [] && recorder.base == 0;
    Deliver(recorder, msgs);
    assert recorder.log.records[0..] == recorder.log.records;
    assert recorder.heard == msgs;
    assert recorder.log.records == Filter(msgs, Wanted(recorder.topics, recorder.patterns));
    assert recorder.log.disk.files[logName] == StoredLog(SCHEMA_VERSION, recorder.log.records);
    recorder.Stop();
    assert recorder.log.records == Filter(msgs, Wanted(recorder.topics, recorder.patterns));
  }

  /** Reopens the log at `logName` after recording stopped and walks it,
      checking every record as the exact-topic and pattern tests do. */
  method CountVerified(disk: Disk, logName: string, numTopics: nat, verifyTopic: string -> bool)
    returns (reopened: bool, count: nat, verified: bool, read: seq<Record>)
    requires numTopics > 0
    requires PathOpenable(logName) && logName != MEMORY_NAME
    requires logName in disk.files && disk.files[logName].version == SCHEMA_VERSION
    modifies disk
    ensures reopened && read == old(disk.files[logName].records) && count == |read|
    ensures disk.files == old(disk.files)
    ensures verified <==> forall j :: 0 <= j < |read| ==> VerifyMessage(read[j], j, numTopics, verifyTopic)
  {
    var log := new Log(disk);
    reopened := log.Open(logName);
    read := log.records;
    assert old(disk.files)[logName := old(disk.files)[logName]] == old(disk.files);
    var iter := log.AllMessages();
    var end := new MsgIter();
    count, verified := 0, true;
    while !iter.Equals(end)
      modifies iter
      invariant iter.Valid() && end.snapshot == [] && iter.snapshot == read
      invariant count == iter.pos
      invariant verified <==> forall j :: 0 <= j < count ==> VerifyMessage(read[j], j, numTopics, verifyTopic)
      decreases |iter.snapshot| - iter.pos
    {
      verified := verified && VerifyMessage(iter.Current(), count, numTopics, verifyTopic);
      iter.Advance();
      count := count + 1;
    }
  }

  /** Removing a file that was removed, then written, leaves the rest of
      the filesystem as it was. */
  lemma RemoveWritten(existing: map<string, StoredLog>, path: string, written: StoredLog)
    ensures (existing - {path})[path := written] - {path} == existing - {path}
  {
  }

  /** Every chirp of a round-robin stream passes VerifyMessage at its own index. */
  lemma StreamVerifies(topics: seq<string>, numChirps: nat, verifyTopic: string -> bool, j: nat)
    requires |topics| > 0 && j < |Stream(topics, numChirps)|
    requires forall i :: 0 <= i < |topics| ==> verifyTopic(topics[i])
    ensures VerifyMessage(Stream(topics, numChirps)[j], j, |topics|, verifyTopic)
  {
    StreamAt(topics, numChirps, j);
    ValueOfDigits(j / |topics| + 1);
  }

  /** TEST(recorder, BeginRecordingTopicsBeforeAdvertisement): every chirp
      on every topic is recorded once, in order, and passes VerifyMessage. */
  method BeginRecordingTopicsBeforeAdvertisement(
    existing: map<string, StoredLog>, topics: seq<string>, numChirps: nat, logName: string)
    returns (started: RecorderError, reopened: bool, count: nat, verified: bool, remaining: map<string, StoredLog>)
    requires |topics| > 0
    requires forall i :: 0 <= i < |topics| ==> |topics[i]| > 0 && topics[i][0] == '/'
    requires PathOpenable(logName) && logName != MEMORY_NAME
    ensures started == NoError && reopened && verified
    ensures count == numChirps * |topics|
    ensures remaining == existing - {logName}
  {
    var disk := new Disk.Holding(existing);
    var recorder := new Recorder(disk);
    AddTopics(recorder, topics);
    disk.Remove(logName);
    var stream := Stream(topics, numChirps);
    started := RecordToFile(recorder, logName, stream);
    forall j | 0 <= j < |stream|
      ensures Wanted(recorder.topics, recorder.patterns)(stream[j])
    {
      StreamTopics(topics, numChirps, j);
    }
    FilterAll(stream, Wanted(recorder.topics, recorder.patterns));

    var read;
    reopened, count, verified, read := CountVerified(disk, logName, |topics|, InList(topics));
    forall j | 0 <= j < |read|
      ensures VerifyMessage(read[j], j, |topics|, InList(topics))
    {
      StreamVerifies(topics, numChirps, InList(topics), j);
    }
    StreamAt(topics, numChirps, 0);
    disk.Remove(logName);
    remaining := disk.files;
  }

  /** Reopens the log at `logName` and walks it as the late-start test does:
      checks every record's type and keeps the payload of the last one. */
  method ReadLast(disk: Disk, logName: string)
    returns (reopened: bool, typesOk: bool, data: seq<byte>, read: seq<Record>)
    requires PathOpenable(logName) && logName != MEMORY_NAME
    requires logName in disk.files && disk.files[logName].version == SCHEMA_VERSION
    modifies disk
    ensures reopened && read == old(disk.files[logName].records)
    ensures disk.files == old(disk.files)
    ensures typesOk <==> forall j :: 0 <= j < |read| ==> read[j].msgType == CHIRP_TYPE
    ensures data == if |read| == 0 then [] else read[|read| - 1].data
  {
    var log := new Log(disk);
    reopened := log.Open(logName);
    read := log.records;
    assert old(disk.files)[logName := old(disk.files)[logName]] == old(disk.files);
    var iter := log.AllMessages();
    var end := new MsgIter();
    data, typesOk := [], true;
    while !iter.Equals(end)
      modifies iter
      invariant iter.Valid() && end.snapshot == [] && iter.snapshot == read
      invariant data == if iter.pos == 0 then [] else read[iter.pos - 1].data
      invariant typesOk <==> forall j :: 0 <= j < iter.pos ==> read[j].msgType == CHIRP_TYPE
      decreases |iter.snapshot| - iter.pos
    {
      data := iter.Current().data;
      typesOk := typesOk && iter.Current().msgType == CHIRP_TYPE;
      iter.Advance();
    }
  }

  /** TEST(recorder, BeginRecordingTopicsAfterAdvertisement): the first
      `missed` chirps go out before the recorder listens; every record has
      the chirp type and the last one is the final chirp. */
  method BeginRecordingTopicsAfterAdvertisement(
    existing: map<string, StoredLog>, topics: seq<string>, numChirps: nat, missed: nat, logName: string)
    returns (started: RecorderError, reopened: bool, typesOk: bool, lastValue: nat, read: seq<Record>,
             remaining: map<string, StoredLog>)
    requires |topics| > 0
    requires forall i :: 0 <= i < |topics| ==> |topics[i]| > 0 && topics[i][0] == '/'
    requires PathOpenable(logName) && logName != MEMORY_NAME
    requires missed < numChirps * |topics|
    ensures started == NoError && reopened && typesOk
    ensures lastValue == numChirps
    ensures |Stream(topics, numChirps)| == numChirps * |topics|
    ensures read == Stream(topics, numChirps)[missed..]
    ensures remaining == existing - {logName}
  {
    StreamAt(topics, numChirps, 0);
    var disk := new Disk.Holding(existing);
    disk.Remove(logName);
    started := RecordLate(disk, topics, numChirps, missed, logName);
    RemoveWritten(existing, logName, disk.files[logName]);

    var data;
    reopened, typesOk, data, read := ReadLast(disk, logName);
    forall j | 0 <= j < |read|
      ensures read[j].msgType == CHIRP_TYPE
    {
      StreamAt(topics, numChirps, missed + j);
    }
    LastChirp(topics, numChirps);
    ValueOfDigits(numChirps);
    lastValue := Value(data);
    disk.Remove(logName);
    remaining := disk.files;
  }

  /** The late-start recording: the first `missed` chirps are delivered
      before any topic is registered, then the recorder records the rest. */
  method RecordLate(disk: Disk, topics: seq<string>, numChirps: nat, missed: nat, logName: string)
    returns (started: RecorderError)
    requires |topics| > 0
    requires forall i :: 0 <= i < |topics| ==> |topics[i]| > 0 && topics[i][0] == '/'
    requires PathOpenable(logName) && logName != MEMORY_NAME && logName !in disk.files
    requires missed <= |Stream(topics, numChirps)|
    modifies disk
    ensures started == NoError
    ensures disk.files == old(disk.files)[logName := StoredLog(SCHEMA_VERSION, Stream(topics, numChirps)[missed..])]
  {
    var stream := Stream(topics, numChirps);
    var recorder := new Recorder(disk);
    Deliver(recorder, stream[..missed]);
    AddTopics(recorder, topics);
    var rest := stream[missed..];
    started := RecordToFile(recorder, logName, rest);
    forall j | 0 <= j < |rest|
      ensures Wanted(recorder.topics, recorder.patterns)(rest[j])
    {
      StreamTopics(topics, numChirps, missed + j);
    }
    FilterAll(rest, Wanted(recorder.topics, recorder.patterns));
  }

  /** The exact-pattern capture rule with no names and one pattern is the
      pattern itself. */
  lemma SinglePattern(pattern: Pattern)
    ensures forall r: Record :: Wanted({}, [pattern])(r) == MatchesTopic(pattern)(r.topic)
  {
    forall r: Record
      ensures Wanted({}, [pattern])(r) == MatchesTopic(pattern)(r.topic)
    {
      assert [pattern][0] == pattern;
    }
  }

  /** The test's count of the chirp topics the pattern selects, one
      regex_match per topic. */
  method CountMatching(topics: seq<string>, pattern: Pattern) returns (n: nat)
    ensures n == |Filter(topics, MatchesTopic(pattern))|
  {
    n := 0;
    for i := 0 to |topics|
      invariant n == |Filter(topics[..i], MatchesTopic(pattern))|
    {
      FilterAppend(topics[..i], [topics[i]], MatchesTopic(pattern));
      assert topics[..i + 1] == topics[..i] + [topics[i]];
      if Matches(pattern, topics[i]) {
        n := n + 1;
      }
    }
    assert topics[..|topics|] == topics;
  }

  /** RecordPatternBeforeAdvertisement: with one pattern registered, exactly
      the chirps on matching topics are recorded, round-robin over them. */
  method RecordPatternBeforeAdvertisement(
    existing: map<string, StoredLog>, pattern: Pattern, numChirps: nat, logName: string)
    returns (numMatchingTopics: nat, started: RecorderError, reopened: bool, count: nat, verified: bool,
             remaining: map<string, StoredLog>)
    requires |Filter(CHIRP_TOPICS, MatchesTopic(pattern))| > 0
    requires PathOpenable(logName) && logName != MEMORY_NAME
    ensures numMatchingTopics == |Filter(CHIRP_TOPICS, MatchesTopic(pattern))|
    ensures started == NoError && reopened && verified
    ensures count == numChirps * numMatchingTopics
    ensures remaining == existing - {logName}
  {
    var topics := CHIRP_TOPICS;
    numMatchingTopics := CountMatching(topics, pattern);

    var disk := new Disk.Holding(existing);
    disk.Remove(logName);
    started := RecordPattern(disk, pattern, numChirps, logName);
    RemoveWritten(existing, logName, disk.files[logName]);
    PatternStream(topics, numChirps, pattern);

    var read;
    reopened, count, verified, read := CountVerified(disk, logName, numMatchingTopics, MatchesTopic(pattern));
    disk.Remove(logName);
    remaining := disk.files;
  }

  /** The pattern recording: one pattern registered, then the whole chirp
      stream over the four chirp topics delivered. */
  method RecordPattern(disk: Disk, pattern: Pattern, numChirps: nat, logName: string) returns (started: RecorderError)
    requires PathOpenable(logName) && logName != MEMORY_NAME && logName !in disk.files
    modifies disk
    ensures started == NoError
    ensures disk.files == old(disk.files)[logName :=
              StoredLog(SCHEMA_VERSION, Filter(Stream(CHIRP_TOPICS, numChirps), Wanted({}, [pattern])))]
  {
    var recorder := new Recorder(disk);
    var _ := recorder.AddPattern(pattern);
    started := RecordToFile(recorder, logName, Stream(CHIRP_TOPICS, numChirps));
    assert recorder.topics == {} && recorder.patterns == [pattern];
  }

  /** What a single-pattern recorder stores from the chirp stream: the stream
      over the matching topics alone, every record of which passes
      VerifyMessage with the pattern as the topic check. */
  lemma PatternStream(topics: seq<string>, numChirps: nat, pattern: Pattern)
    requires |Filter(topics, MatchesTopic(pattern))| > 0
    ensures var selected := Filter(topics, MatchesTopic(pattern));
            var stored := Filter(Stream(topics, numChirps), Wanted({}, [pattern]));
            stored == Stream(selected, numChirps) && |stored| == numChirps * |selected| &&
            forall j :: 0 <= j < |stored| ==> VerifyMessage(stored[j], j, |selected|, MatchesTopic(pattern))
  {
    var selected := Filter(topics, MatchesTopic(pattern));
    SinglePattern(pattern);
    FilterStream(topics, numChirps, MatchesTopic(pattern), Wanted({}, [pattern]));
    forall i | 0 <= i < |selected|
      ensures MatchesTopic(pattern)(selected[i])
    {
      FilterKeeps(topics, MatchesTopic(pattern), selected[i]);
    }
    forall j | 0 <= j < |Stream(selected, numChirps)|
      ensures VerifyMessage(Stream(selected, numChirps)[j], j, |selected|, MatchesTopic(pattern))
    {
      StreamVerifies(selected, numChirps, MatchesTopic(pattern), j);
    }
    StreamAt(selected, numChirps, 0);
  }

  /** Of the chirp topics, ".*foo.*" selects the two "foo" topics. */
  lemma FooTopics()
    ensures Filter(CHIRP_TOPICS, MatchesTopic(Compile(".*foo.*"))) == ["/foo1", "/foo2"]
  {
    var p := Compile(".*foo.*");
    CompileLiteral("foo", ".*");
    assert ".*foo.*"[2..] == "foo" + ".*";
    assert Compile(".*") == [AnyRun];
    assert p == [AnyRun] + Literal("foo") + [AnyRun];
    var keep := MatchesTopic(p);
    var ts := CHIRP_TOPICS;
    forall i | 0 <= i < 4
      ensures keep(ts[i]) <==> i < 2
    {
      SurroundedLiteral("foo", ts[i]);
      if i < 2 {
        assert OccursAt(ts[i], "foo", 1);
      } else {
        assert ts[i][0..3] != "foo" && ts[i][1..4] != "foo" && ts[i][2..5] != "foo";
      }
    }
    assert ts[1..][1..][1..][1..] == [];
    assert Filter(ts[1..][1..][1..], keep) == [];
    assert Filter(ts[1..][1..], keep) == [];
    assert Filter(ts[1..], keep) == ["/foo2"];
  }

  /** ".*" selects every chirp topic. */
  lemma AllTopics()
    ensures Filter(CHIRP_TOPICS, MatchesTopic(Compile(".*"))) == CHIRP_TOPICS
  {
    assert Compile(".*") == [AnyRun];
    forall i | 0 <= i < |CHIRP_TOPICS|
      ensures MatchesTopic(Compile(".*"))(CHIRP_TOPICS[i])
    {
      AnyRunMatchesAll(CHIRP_TOPICS[i]);
    }
    FilterAll(CHIRP_TOPICS, MatchesTopic(Compile(".*")));
  }

  /** TEST(recorder, BeginRecordingPatternBeforeAdvertisement): ".*foo.*"
      with 100 chirps records 200 messages. */
  method BeginRecordingPatternBeforeAdvertisement(existing: map<string, StoredLog>, logName: string)
    returns (numMatchingTopics: nat, started: RecorderError, reopened: bool, count: nat, verified: bool,
             remaining: map<string, StoredLog>)
    requires PathOpenable(logName) && logName != MEMORY_NAME
    ensures numMatchingTopics == 2 && started == NoError && reopened && verified
    ensures count == 200
    ensures remaining == existing - {logName}
  {
    FooTopics();
    numMatchingTopics, started, reopened, count, verified, remaining :=
      RecordPatternBeforeAdvertisement(existing, Compile(".*foo.*"), 100, logName);
  }

  /** TEST(recorder, BeginRecordingAllBeforeAdvertisement): ".*" with 100
      chirps records all 400 messages. */
  method BeginRecordingAllBeforeAdvertisement(existing: map<string, StoredLog>, logName: string)
    returns (numMatchingTopics: nat, started: RecorderError, reopened: bool, count: nat, verified: bool,
             remaining: map<string, StoredLog>)
    requires PathOpenable(logName) && logName != MEMORY_NAME
    ensures numMatchingTopics == 4 && started == NoError && reopened && verified
    ensures count == 400
    ensures remaining == existing - {logName}
  {
    AllTopics();
    numMatchingTopics, started, reopened, count, verified, remaining :=
      RecordPatternBeforeAdvertisement(existing, Compile(".*"), 100, logName);
  }

  /** The test's own values: topics "/foo" and "/bar", 100 chirps each, so
      200 records. */
  method BeginRecordingFooBarBeforeAdvertisement(existing: map<string, StoredLog>, logName: string)
    returns (started: RecorderError, reopened: bool, count: nat, verified: bool, remaining: map<string, StoredLog>)
    requires PathOpenable(logName) && logName != MEMORY_NAME
    ensures started == NoError && reopened && verified && count == 200
    ensures remaining == existing - {logName}
  {
    var topics := ["/foo", "/bar"];
    assert topics[0][0] == '/' && topics[1][0] == '/';
    started, reopened, count, verified, remaining :=
      BeginRecordingTopicsBeforeAdvertisement(existing, topics, 100, logName);
  }
}
