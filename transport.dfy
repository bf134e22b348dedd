/**
 * MessageInfo: the metadata value (topic, type name, partition) handed to
 * subscribers with every message, and the "@<partition>@<topic>" combined
 * form that SetTopicAndPartition decodes.
 */
module Transport {
  import opened Wrappers

  /** A segment of the combined form: non-empty, led by the path separator,
      and free of the '@' delimiter. */
  predicate IsSegment(s: string)
  {
    |s| > 0 && s[0] == '/' && '@' !in s
  }

  /** The combined form of a partition and a topic. */
  function Combine(partition: string, topic: string): string
  {
    "@" + partition + "@" + topic
  }

  /** The first index at or after `from` that holds `c`, if any. */
  function IndexOf(s: string, c: char, from: nat): (r: Option<nat>)
    requires from <= |s|
    ensures r.Some? ==> from <= r.value < |s| && s[r.value] == c
    ensures forall k :: from <= k < |s| && (r.None? || k < r.value) ==> s[k] != c
    decreases |s| - from
  {
    if from == |s| then None
    else if s[from] == c then Some(from)
    else IndexOf(s, c, from + 1)
  }

  /** Splits a combined string into (partition, topic). The leading '@' is
      required; the partition runs up to the next '@' and the topic is the
      rest; both must be segments. Anything else is rejected. */
  function Decompose(combined: string): (r: Option<(string, string)>)
    ensures r.Some? ==> IsSegment(r.value.0) && IsSegment(r.value.1)
    ensures r.Some? ==> combined == Combine(r.value.0, r.value.1)
  {
    if |combined| == 0 || combined[0] != '@' then None
    else
      match IndexOf(combined, '@', 1)
      case None => None
      case Some(j) =>
        var partition, topic := combined[1..j], combined[j + 1..];
        if IsSegment(partition) && IsSegment(topic) then
          assert combined == Combine(partition, topic) by {
            assert combined == combined[..1] + combined[1..j] + combined[j..j + 1] + combined[j + 1..];
          }
          Some((partition, topic))
        else None
  }

  /** Every well-formed pair is decoded back to itself. */
  lemma {:induction false} DecomposeCombine(partition: string, topic: string)
    requires IsSegment(partition) && IsSegment(topic)
    ensures Decompose(Combine(partition, topic)) == Some((partition, topic))
  {
    var s := Combine(partition, topic);
    var j := 1 + |partition|;
    assert s[j] == '@';
    assert s[1..j] == partition;
    assert s[j + 1..] == topic;
    forall k | 1 <= k < j
      ensures s[k] != '@'
    {
      assert s[k] == partition[k - 1];
    }
    assert IndexOf(s, '@', 1) == Some(j);
  }

  /** Decoding succeeds exactly on the combined forms of well-formed pairs,
      and then gives that pair back. */
  lemma DecomposeExactly(combined: string, partition: string, topic: string)
    ensures Decompose(combined) == Some((partition, topic)) <==>
            IsSegment(partition) && IsSegment(topic) && combined == Combine(partition, topic)
  {
    if IsSegment(partition) && IsSegment(topic) && combined == Combine(partition, topic) {
      DecomposeCombine(partition, topic);
    }
  }

  /** Decoding is rejected exactly when no well-formed pair combines to the input. */
  lemma DecomposeRejects(combined: string)
    ensures Decompose(combined).None? <==>
            forall p, t :: IsSegment(p) && IsSegment(t) ==> combined != Combine(p, t)
  {
    if Decompose(combined).None? {
      forall p, t | IsSegment(p) && IsSegment(t)
        ensures combined != Combine(p, t)
      {
        if combined == Combine(p, t) {
          DecomposeCombine(p, t);
        }
      }
    }
  }

  /** The (partition, topic) pair that SetTopicAndPartition leaves behind:
      the decoded pair, or both empty when the input is malformed. */
  function PartitionAndTopic(combined: string): (r: (string, string))
    ensures (r.0 == "") == (r.1 == "")
    ensures r.0 != "" ==> IsSegment(r.0) && IsSegment(r.1) && combined == Combine(r.0, r.1)
  {
    match Decompose(combined)
    case Some(pt) => pt
    case None => ("", "")
  }

  class MessageInfo {
    var topic: string
    var msgType: string
    var partition: string

    /** A fresh MessageInfo has all three fields empty. */
    constructor()
      ensures topic == "" && msgType == "" && partition == ""
    {
      topic, msgType, partition := "", "", "";
    }

    /** The copy constructor: duplicates all three fields by value. */
    constructor Copy(other: MessageInfo)
      ensures topic == other.topic && msgType == other.msgType && partition == other.partition
    {
      topic, msgType, partition := other.topic, other.msgType, other.partition;
    }

    function Topic(): string
      reads this
    {
      topic
    }

    function Type(): string
      reads this
    {
      msgType
    }

    function Partition(): string
      reads this
    {
      partition
    }

    method SetTopic(s: string)
      modifies this
      ensures Topic() == s
      ensures Type() == old(Type()) && Partition() == old(Partition())
    {
      topic := s;
    }

    method SetType(s: string)
      modifies this
      ensures Type() == s
      ensures Topic() == old(Topic()) && Partition() == old(Partition())
    {
      msgType := s;
    }

    method SetPartition(s: string)
      modifies this
      ensures Partition() == s
      ensures Topic() == old(Topic()) && Type() == old(Type())
    {
      partition := s;
    }

    /** Decodes "@<partition>@<topic>". Malformed input fails closed: both
        fields become empty, whatever they held before. */
    method SetTopicAndPartition(combined: string) returns (ok: bool)
      modifies this
      ensures ok == Decompose(combined).Some?
      ensures (Partition(), Topic()) == PartitionAndTopic(combined)
      ensures Type() == old(Type())
    {
      var decoded := Decompose(combined);
      match decoded
      case Some(pt) =>
        partition, topic := pt.0, pt.1;
        ok := true;
      case None =>
        partition, topic := "", "";
        ok := false;
    }
  }
}
