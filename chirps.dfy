/**
 * Chirps: the numbered test messages the recorder tests publish. A chirper
 * publishes `numChirps` rounds; round c publishes chirp value c once on
 * every topic, in the order the topics are listed, and is stamped with
 * time (c, 0). A chirp's payload is its value as little-endian base-256
 * digits.
 */
module Chirps {
  import opened TransportLog

  /** The type name of a chirp message. */
  const CHIRP_TYPE: string := "ignition.msgs.Int32"

  /** The payload bytes of a chirp value. */
  function Digits(v: nat): (bs: seq<byte>)
    ensures |bs| > 0
    decreases v
  {
    if v < 256 then [v as byte] else [(v % 256) as byte] + Digits(v / 256)
  }

  /** Reads a payload back as a chirp value. */
  function Value(bs: seq<byte>): nat
  {
    if |bs| == 0 then 0 else bs[0] as nat + 256 * Value(bs[1..])
  }

  /** Reading a chirp's payload gives back its value. */
  lemma {:induction false} ValueOfDigits(v: nat)
    ensures Value(Digits(v)) == v
    decreases v
  {
    if v >= 256 {
      ValueOfDigits(v / 256);
      assert Digits(v)[1..] == Digits(v / 256);
    }
  }

  /** Chirp `value` as published on `topic`: its payload parses back to
      `value` under the chirp type. */
  function Chirp(topic: string, value: nat): (r: Record)
    ensures r.topic == topic && r.msgType == CHIRP_TYPE
    ensures |r.data| > 0 && Value(r.data) == value
  {
    ValueOfDigits(value);
    Record(Time(value, 0), topic, CHIRP_TYPE, Digits(value))
  }

  /** One round: chirp `value` on every topic, in order. */
  function Round(topics: seq<string>, value: nat): (r: seq<Record>)
    ensures |r| == |topics|
  {
    if |topics| == 0 then [] else [Chirp(topics[0], value)] + Round(topics[1..], value)
  }

  /** Chirp j of a round is the round's value on topic j. */
  lemma {:induction false} RoundAt(topics: seq<string>, value: nat, j: nat)
    requires j < |topics|
    ensures Round(topics, value)[j] == Chirp(topics[j], value)
  {
    if j > 0 {
      RoundAt(topics[1..], value, j - 1);
    }
  }

  /** Everything a chirper publishes: rounds 1 to numChirps. */
  function Stream(topics: seq<string>, numChirps: nat): seq<Record>
  {
    if numChirps == 0 then [] else Stream(topics, numChirps - 1) + Round(topics, numChirps)
  }

  /** A positive multiple of m is at least m. */
  lemma {:induction false} MultipleAtLeast(d: nat, m: nat)
    requires d > 0
    ensures d * m >= m
    decreases d
  {
    if d > 1 {
      MultipleAtLeast(d - 1, m);
      assert d * m == (d - 1) * m + m;
    }
  }

  /** Integer division and remainder are determined by a decomposition. */
  lemma DivModOf(i: int, q: nat, r: nat, m: nat)
    requires m > 0 && r < m && i == q * m + r
    ensures i / m == q && i % m == r
  {
    var q', r' := i / m, i % m;
    assert i == q' * m + r';
    if q' < q {
      var d: nat := q - q';
      assert d * m == q * m - q' * m;
      MultipleAtLeast(d, m);
    } else if q' > q {
      var d: nat := q' - q;
      assert d * m == q' * m - q * m;
      MultipleAtLeast(d, m);
    }
  }

  /** A stream holds numChirps x |topics| chirps; chirp i is value
      i / |topics| + 1 on topic i % |topics|. */
  lemma {:induction false} StreamAt(topics: seq<string>, numChirps: nat, i: nat)
    requires |topics| > 0
    ensures |Stream(topics, numChirps)| == numChirps * |topics|
    ensures i < numChirps * |topics| ==>
      Stream(topics, numChirps)[i] == Chirp(topics[i % |topics|], i / |topics| + 1)
  {
    var m := |topics|;
    if numChirps > 0 {
      var before := (numChirps - 1) * m;
      StreamAt(topics, numChirps - 1, i);
      assert numChirps * m == before + m;
      if before <= i < numChirps * m {
        DivModOf(i, numChirps - 1, i - before, m);
        RoundAt(topics, numChirps, i - before);
      }
    }
  }

  /** The last chirp published is the final value on the last topic. */
  lemma LastChirp(topics: seq<string>, numChirps: nat)
    requires |topics| > 0 && numChirps > 0
    ensures |Stream(topics, numChirps)| > 0
    ensures Stream(topics, numChirps)[|Stream(topics, numChirps)| - 1] == Chirp(topics[|topics| - 1], numChirps)
  {
    RoundAt(topics, numChirps, |topics| - 1);
  }

  /** Every chirp is on one of the topics. */
  lemma StreamTopics(topics: seq<string>, numChirps: nat, j: nat)
    requires |topics| > 0 && j < |Stream(topics, numChirps)|
    ensures Stream(topics, numChirps)[j].topic in topics
  {
    StreamAt(topics, numChirps, j);
  }

  /** Selecting chirps by topic selects the topics of every round. */
  lemma {:induction false} FilterRound(topics: seq<string>, value: nat, keep: string -> bool, wanted: Record -> bool)
    requires forall r: Record {:trigger wanted(r)} :: wanted(r) == keep(r.topic)
    ensures Filter(Round(topics, value), wanted) == Round(Filter(topics, keep), value)
  {
    if |topics| > 0 {
      var first := Chirp(topics[0], value);
      var r := Round(topics, value);
      assert r == [first] + Round(topics[1..], value);
      assert r[1..] == Round(topics[1..], value);
      FilterRound(topics[1..], value, keep, wanted);
      assert wanted(first) == keep(topics[0]);
      if keep(topics[0]) {
        assert Filter(topics, keep) == [topics[0]] + Filter(topics[1..], keep);
      } else {
        assert Filter(topics, keep) == Filter(topics[1..], keep);
      }
    }
  }

  /** A stream of n rounds is the stream of n - 1 rounds followed by round n. */
  lemma StreamUnfold(topics: seq<string>, numChirps: nat)
    requires numChirps > 0
    ensures Stream(topics, numChirps) == Stream(topics, numChirps - 1) + Round(topics, numChirps)
  {
  }

  /** Selecting chirps by topic gives the stream of the selected topics. */
  lemma {:induction false} FilterStream(topics: seq<string>, numChirps: nat, keep: string -> bool, wanted: Record -> bool)
    requires forall r: Record {:trigger wanted(r)} :: wanted(r) == keep(r.topic)
    ensures Filter(Stream(topics, numChirps), wanted) == Stream(Filter(topics, keep), numChirps)
  {
    if numChirps > 0 {
      var earlier, last := Stream(topics, numChirps - 1), Round(topics, numChirps);
      StreamUnfold(topics, numChirps);
      FilterAppend(earlier, last, wanted);
      FilterStream(topics, numChirps - 1, keep, wanted);
      FilterRound(topics, numChirps, keep, wanted);
    }
  }
}
