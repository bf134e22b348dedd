/**
 * The Recorder: registers exact topic names and topic patterns, opens a
 * Log on Start, appends every delivered message whose topic it captures,
 * and closes the log on Stop. Message delivery is a sequence of OnMessage
 * calls, one per message the transport hands to the recorder.
 */
module LogRecorder {
  import opened TransportLog
  import opened Patterns
  import opened Transport

  datatype RecorderError = NoError | LogError | AlreadyRecording | EmptyCriteria

  /** Topic names are fully qualified with a leading '/'; a name given
      without one gets it. */
  function Normalize(topic: string): (r: string)
    ensures |r| > 0 && r[0] == '/'
    ensures r == topic || r == "/" + topic
    ensures |topic| > 0 && topic[0] == '/' ==> r == topic
  {
    if |topic| > 0 && topic[0] == '/' then topic else "/" + topic
  }

  /** The capture rule: a topic is recorded when it is a registered name or
      matches a registered pattern. */
  predicate Captures(topics: set<string>, patterns: seq<Pattern>, topic: string)
  {
    topic in topics || exists i | 0 <= i < |patterns| :: Matches(patterns[i], topic)
  }

  /** The capture rule as a selector on delivered records. */
  function Wanted(topics: set<string>, patterns: seq<Pattern>): Record -> bool
  {
    (r: Record) => Captures(topics, patterns, r.topic)
  }

  class Recorder {
    const log: Log
    var topics: set<string>
    var patterns: seq<Pattern>
    var recording: bool
    /** Number of records the log already held when recording started. */
    ghost var base: nat
    /** Every message delivered since recording started, in arrival order. */
    ghost var heard: seq<Record>

    /** The recorder is recording exactly while its log is open, and what it
        appended since Start is the captured part of what it heard. */
    ghost predicate Valid()
      reads this, log, log.disk
    {
      log.Valid() && recording == log.isOpen &&
      (recording ==> base <= |log.records| && log.records[base..] == Filter(heard, Wanted(topics, patterns)))
    }

    constructor(disk: Disk)
      ensures Valid() && fresh(log) && log.disk == disk
      ensures topics == {} && patterns == [] && !recording
    {
      log := new Log(disk);
      topics, patterns, recording := {}, [], false;
      base, heard := 0, [];
    }

    /** Registers an exact topic name. Criteria are fixed once recording
        has started: a later call is rejected and changes nothing. */
    method AddTopic(name: string) returns (e: RecorderError)
      requires Valid()
      modifies this
      ensures Valid()
      ensures e == if old(recording) then AlreadyRecording else NoError
      ensures topics == if old(recording) then old(topics) else old(topics) + {Normalize(name)}
      ensures patterns == old(patterns) && recording == old(recording)
      ensures base == old(base) && heard == old(heard)
    {
      if recording {
        return AlreadyRecording;
      }
      topics := topics + {Normalize(name)};
      e := NoError;
    }

    /** Registers a topic pattern (the regex overload of AddTopic). */
    method AddPattern(pattern: Pattern) returns (e: RecorderError)
      requires Valid()
      modifies this
      ensures Valid()
      ensures e == if old(recording) then AlreadyRecording else NoError
      ensures patterns == if old(recording) then old(patterns) else old(patterns) + [pattern]
      ensures topics == old(topics) && recording == old(recording)
      ensures base == old(base) && heard == old(heard)
    {
      if recording {
        return AlreadyRecording;
      }
      patterns := patterns + [pattern];
      e := NoError;
    }

    /** Opens the log at `name` and starts recording. */
    method Start(name: string) returns (e: RecorderError)
      requires Valid()
      modifies this, log, log.disk
      ensures Valid()
      ensures e == (if old(recording) then AlreadyRecording
                    else if old(topics) == {} && old(patterns) == [] then EmptyCriteria
                    else if !Openable(old(log.disk.files), ParseDestination(name)) then LogError
                    else NoError)
      ensures topics == old(topics) && patterns == old(patterns)
      ensures recording == (old(recording) || e == NoError)
      ensures e == NoError ==> heard == [] && base == |log.records|
      ensures e == NoError ==> log.dest == ParseDestination(name) && log.records == Existing(old(log.disk.files), log.dest)
      ensures e == NoError && log.dest.File? ==>
                log.disk.files == old(log.disk.files)[log.dest.path := StoredLog(SCHEMA_VERSION, log.records)]
      ensures e == NoError && log.dest.Memory? ==> log.disk.files == old(log.disk.files)
      ensures e != NoError ==> log.disk.files == old(log.disk.files) && log.records == old(log.records)
      ensures e != NoError ==> heard == old(heard) && base == old(base)
      ensures e != NoError ==> log.isOpen == old(log.isOpen) && log.dest == old(log.dest) && log.version == old(log.version)
    {
      if recording {
        return AlreadyRecording;
      }
      if topics == {} && patterns == [] {
        return EmptyCriteria;
      }
      var ok := log.Open(name);
      if !ok {
        return LogError;
      }
      recording := true;
      base, heard := |log.records|, [];
      e := NoError;
    }

    /** The subscription callback: while recording, a message on a captured
        topic is appended to the log; every other message is dropped. */
    method OnMessage(info: MessageInfo, data: seq<byte>, now: Time)
      requires Valid()
      modifies this, log, log.disk
      ensures Valid()
      ensures topics == old(topics) && patterns == old(patterns) && recording == old(recording)
      ensures base == old(base) && log.dest == old(log.dest)
      ensures heard == if recording then old(heard) + [Record(now, info.topic, info.msgType, data)] else old(heard)
      ensures log.records ==
        if recording && Captures(topics, patterns, info.topic)
        then old(log.records) + [Record(now, info.topic, info.msgType, data)]
        else old(log.records)
      ensures log.disk.files ==
        if recording && Captures(topics, patterns, info.topic) && log.dest.File?
        then old(log.disk.files)[log.dest.path := StoredLog(SCHEMA_VERSION, log.records)]
        else old(log.disk.files)
    {
      if !recording {
        return;
      }
      var msg := Record(now, info.Topic(), info.Type(), data);
      FilterAppend(heard, [msg], Wanted(topics, patterns));
      if Captures(topics, patterns, msg.topic) {
        var ok := log.InsertMessage(now, msg.topic, msg.msgType, data, |data|);
        assert data[..|data|] == data;
        assert log.records[base..] == old(log.records)[base..] + [msg];
      }
      heard := heard + [msg];
    }

    /** Stops recording and closes the log; what was written stays on disk.
        Calling it again changes nothing. */
    method Stop()
      requires Valid()
      modifies this, log
      ensures Valid() && !recording
      ensures topics == old(topics) && patterns == old(patterns)
      ensures log.records == old(log.records) && log.dest == old(log.dest)
    {
      if recording {
        log.Close();
        recording := false;
      }
    }
  }

  /** Every record the recorder appended has a captured topic. */
  lemma RecordedAreCaptured(topics: set<string>, patterns: seq<Pattern>, heard: seq<Record>, r: Record)
    ensures r in Filter(heard, Wanted(topics, patterns)) <==> r in heard && Captures(topics, patterns, r.topic)
  {
    FilterKeeps(heard, Wanted(topics, patterns), r);
  }
}
