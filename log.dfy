/**
 * The log storage engine: an append-only store of time-stamped records
 * behind an open/closed handle, a fixed schema version, and the queries
 * that hand back a forward-only MsgIter cursor.
 *
 * The filesystem is an explicit Disk object mapping paths to stored logs,
 * so that a log written through one handle can be reopened through another.
 */
module TransportLog {

  newtype byte = x: int | 0 <= x < 256

  /** A capture time: seconds and nanoseconds. */
  datatype Time = Time(sec: nat, nsec: nat)

  predicate TimeLe(a: Time, b: Time)
  {
    a.sec < b.sec || (a.sec == b.sec && a.nsec <= b.nsec)
  }

  /** One stored message: capture time, topic, type name and opaque payload. */
  datatype Record = Record(time: Time, topic: string, msgType: string, data: seq<byte>)

  /** The schema version every store opened by this code carries. */
  const SCHEMA_VERSION: string := "0.1.0"

  /** The reserved destination name for a private, non-persistent store. */
  const MEMORY_NAME: string := ":memory:"

  datatype Destination = Memory | File(path: string)

  function ParseDestination(name: string): Destination
  {
    if name == MEMORY_NAME then Memory else File(name)
  }

  /** A path names a file that can be created or opened: it is non-empty and
      does not end in a separator (which would name a directory). */
  predicate PathOpenable(path: string)
  {
    |path| > 0 && path[|path| - 1] != '/'
  }

  datatype StoredLog = StoredLog(version: string, records: seq<Record>)

  /** Whether a destination can be opened against the given files: memory
      always; a file when its path is openable and, if it already holds a
      store, that store has exactly the current schema version. */
  predicate Openable(files: map<string, StoredLog>, d: Destination)
  {
    match d
    case Memory => true
    case File(p) => PathOpenable(p) && (p in files ==> files[p].version == SCHEMA_VERSION)
  }

  /** The records a destination holds when it is opened. */
  function Existing(files: map<string, StoredLog>, d: Destination): seq<Record>
  {
    match d
    case Memory => []
    case File(p) => if p in files then files[p].records else []
  }

  /** The records of `s` that `keep` selects, in their original order. */
  function Filter<T>(s: seq<T>, keep: T -> bool): (r: seq<T>)
    ensures |r| <= |s|
  {
    if |s| == 0 then []
    else (if keep(s[0]) then [s[0]] else []) + Filter(s[1..], keep)
  }

  /** Filtering keeps every selected element. */
  lemma {:induction false} FilterKeeps<T>(s: seq<T>, keep: T -> bool, x: T)
    ensures x in Filter(s, keep) <==> x in s && keep(x)
  {
    if |s| > 0 {
      FilterKeeps(s[1..], keep, x);
      assert s == [s[0]] + s[1..];
    }
  }

  /** Filtering a concatenation filters each part and keeps their order. */
  lemma {:induction false} FilterAppend<T>(a: seq<T>, b: seq<T>, keep: T -> bool)
    ensures Filter(a + b, keep) == Filter(a, keep) + Filter(b, keep)
  {
    if |a| > 0 {
      assert (a + b)[1..] == a[1..] + b;
      FilterAppend(a[1..], b, keep);
    } else {
      assert a + b == b;
    }
  }

  /** Filtering one more element appends it exactly when it is selected. */
  lemma FilterSnoc<T>(s: seq<T>, x: T, keep: T -> bool)
    ensures Filter(s + [x], keep) == Filter(s, keep) + (if keep(x) then [x] else [])
  {
    FilterAppend(s, [x], keep);
    assert [x][1..] == [];
  }

  /** When every element is selected, filtering changes nothing. */
  lemma {:induction false} FilterAll<T>(s: seq<T>, keep: T -> bool)
    requires forall i :: 0 <= i < |s| ==> keep(s[i])
    ensures Filter(s, keep) == s
  {
    if |s| > 0 {
      FilterAll(s[1..], keep);
    }
  }

  /** When no element is selected, filtering gives nothing. */
  lemma {:induction false} FilterNone<T>(s: seq<T>, keep: T -> bool)
    requires forall i :: 0 <= i < |s| ==> !keep(s[i])
    ensures Filter(s, keep) == []
  {
    if |s| > 0 {
      FilterNone(s[1..], keep);
    }
  }

  /** Records in ascending time order. */
  predicate TimeOrdered(rs: seq<Record>)
  {
    forall i, j :: 0 <= i < j < |rs| ==> TimeLe(rs[i].time, rs[j].time)
  }

  /** A query over a time-ordered store is itself time-ordered. */
  lemma {:induction false} FilterTimeOrdered(rs: seq<Record>, keep: Record -> bool)
    requires TimeOrdered(rs)
    ensures TimeOrdered(Filter(rs, keep))
  {
    if |rs| > 0 {
      FilterTimeOrdered(rs[1..], keep);
      var tail := Filter(rs[1..], keep);
      forall j | 0 <= j < |tail|
        ensures TimeLe(rs[0].time, tail[j].time)
      {
        FilterKeeps(rs[1..], keep, tail[j]);
        var k :| 0 <= k < |rs[1..]| && rs[1..][k] == tail[j];
        assert rs[k + 1] == tail[j];
      }
    }
  }

  /** The selector of a topic-set query. */
  function TopicIn(topics: set<string>): Record -> bool
  {
    (r: Record) => r.topic in topics
  }

  /** A topic-set query yields exactly the stored records whose topic is in
      the set; an empty set yields nothing. */
  lemma TopicQueryExactly(rs: seq<Record>, topics: set<string>, r: Record)
    ensures r in Filter(rs, TopicIn(topics)) <==> r in rs && r.topic in topics
    ensures topics == {} ==> Filter(rs, TopicIn(topics)) == []
  {
    FilterKeeps(rs, TopicIn(topics), r);
    if topics == {} {
      FilterNone(rs, TopicIn(topics));
    }
  }

  /** The filesystem the logs are stored in. */
  class Disk {
    var files: map<string, StoredLog>

    constructor()
      ensures files == map[]
    {
      files := map[];
    }

    /** A filesystem that already holds `files`, as left by earlier runs. */
    constructor Holding(files: map<string, StoredLog>)
      ensures this.files == files
    {
      this.files := files;
    }

    /** Deletes the file at `path`, if any. */
    method Remove(path: string)
      modifies this
      ensures files == old(files) - {path}
    {
      files := files - {path};
    }
  }

  /** A forward-only cursor over the result of one query. The end sentinel
      is the cursor over nothing, which is what MsgIter() constructs. */
  class MsgIter {
    const snapshot: seq<Record>
    var pos: nat

    ghost predicate Valid()
      reads this
    {
      pos <= |snapshot|
    }

    /** The end sentinel. */
    constructor()
      ensures Valid() && snapshot == [] && pos == 0
    {
      snapshot, pos := [], 0;
    }

    /** A cursor positioned at the first record of `results`. */
    constructor Over(results: seq<Record>)
      ensures Valid() && snapshot == results && pos == 0
    {
      snapshot, pos := results, 0;
    }

    predicate AtEnd()
      reads this
    {
      pos >= |snapshot|
    }

    /** Cursor equality: two cursors at the end are equal whatever they ran
        over; otherwise they must be at the same place in the same results. */
    predicate Equals(other: MsgIter)
      reads this, other
      ensures other.snapshot == [] ==> (Equals(other) <==> AtEnd())
    {
      (AtEnd() && other.AtEnd()) ||
      (!AtEnd() && !other.AtEnd() && snapshot == other.snapshot && pos == other.pos)
    }

    /** The record under the cursor. */
    function Current(): Record
      reads this
      requires !AtEnd()
    {
      snapshot[pos]
    }

    /** ++iter: moves to the next record; past the last one the cursor is at the end. */
    method Advance()
      requires Valid()
      modifies this
      ensures Valid()
      ensures pos == if old(AtEnd()) then old(pos) else old(pos) + 1
    {
      if pos < |snapshot| {
        pos := pos + 1;
      }
    }
  }

  class Log {
    const disk: Disk
    var isOpen: bool
    var dest: Destination
    var version: string
    var records: seq<Record>

    /** An open log carries the current schema version, and a file-backed
        one is mirrored on disk. */
    ghost predicate Valid()
      reads this, disk
    {
      isOpen ==>
        version == SCHEMA_VERSION &&
        (dest.File? ==> dest.path in disk.files && disk.files[dest.path] == StoredLog(version, records))
    }

    /** A closed log handle. */
    constructor(disk: Disk)
      ensures Valid() && this.disk == disk && !isOpen && records == []
    {
      this.disk := disk;
      isOpen, dest, version, records := false, Memory, "", [];
    }

    /** Opens or creates the store named `name` (MEMORY_NAME for a private
        in-memory store). Fails, changing nothing, when the log is already
        open, the path cannot be opened, or the stored schema differs. */
    method Open(name: string) returns (ok: bool)
      requires Valid()
      modifies this, disk
      ensures Valid()
      ensures ok <==> !old(isOpen) && Openable(old(disk.files), ParseDestination(name))
      ensures ok ==> isOpen && dest == ParseDestination(name) && version == SCHEMA_VERSION
      ensures ok ==> records == Existing(old(disk.files), dest)
      ensures ok && dest.File? ==> disk.files == old(disk.files)[dest.path := StoredLog(SCHEMA_VERSION, records)]
      ensures !(ok && dest.File?) ==> disk.files == old(disk.files)
      ensures !ok ==> isOpen == old(isOpen) && dest == old(dest) && version == old(version) && records == old(records)
    {
      var d := ParseDestination(name);
      if isOpen || !Openable(disk.files, d) {
        return false;
      }
      var existing := Existing(disk.files, d);
      if d.File? {
        disk.files := disk.files[d.path := StoredLog(SCHEMA_VERSION, existing)];
      }
      isOpen, dest, version, records := true, d, SCHEMA_VERSION, existing;
      ok := true;
    }

    /** Closes the handle (what destroying the Log does); stored data stays. */
    method Close()
      requires Valid()
      modifies this
      ensures Valid() && !isOpen
      ensures dest == old(dest) && version == old(version) && records == old(records)
    {
      isOpen := false;
    }

    /** Appends one record holding the first `len` bytes of `data`. Fails on
        a closed log. */
    method InsertMessage(time: Time, topic: string, msgType: string, data: seq<byte>, len: nat) returns (ok: bool)
      requires Valid()
      requires len <= |data|
      modifies this, disk
      ensures Valid()
      ensures ok == isOpen
      ensures isOpen == old(isOpen) && dest == old(dest) && version == old(version)
      ensures records == if ok then old(records) + [Record(time, topic, msgType, data[..len])] else old(records)
      ensures ok && dest.File? ==> disk.files == old(disk.files)[dest.path := StoredLog(version, records)]
      ensures !(ok && dest.File?) ==> disk.files == old(disk.files)
    {
      if !isOpen {
        return false;
      }
      records := records + [Record(time, topic, msgType, data[..len])];
      if dest.File? {
        disk.files := disk.files[dest.path := StoredLog(version, records)];
      }
      ok := true;
    }

    /** The schema version of the open store; empty when closed. */
    function Version(): (v: string)
      reads this, disk
      requires Valid()
      ensures isOpen ==> v == SCHEMA_VERSION
      ensures !isOpen ==> v == ""
    {
      if isOpen then version else ""
    }

    /** A cursor over every stored record in stored order; the end sentinel
        on a closed log. */
    method AllMessages() returns (it: MsgIter)
      requires Valid()
      ensures fresh(it) && it.Valid() && it.pos == 0
      ensures it.snapshot == if isOpen then records else []
    {
      it := new MsgIter.Over(if isOpen then records else []);
    }

    /** A cursor over the stored records whose topic is in `topics`, in
        stored order; the end sentinel on a closed log. */
    method QueryMessages(topics: set<string>) returns (it: MsgIter)
      requires Valid()
      ensures fresh(it) && it.Valid() && it.pos == 0
      ensures it.snapshot == if isOpen then Filter(records, TopicIn(topics)) else []
    {
      it := new MsgIter.Over(if isOpen then Filter(records, TopicIn(topics)) else []);
    }
  }
}
