/**
 * The Metadata response (version 0) of the Apache Kafka protocol as the client parses it:
 * the brokers of the cluster and, per topic, the partitions with their leaders; plus the
 * pure queries the client runs over it.
 */
module MetadataProtocol {
  import opened Wrappers
  import opened Lists
  import opened Errors

  /**
   * A broker of the cluster. It is an object: `==` on brokers compares references, and only
   * `Equals(Broker?)` compares the three fields.
   */
  class Broker {
    const nodeId: int
    const host: string
    const port: int

    constructor (nodeId: int, host: string, port: int)
      ensures this.nodeId == nodeId && this.host == host && this.port == port
    {
      this.nodeId := nodeId;
      this.host := host;
      this.port := port;
    }

    /** `IEquatable<Broker>.Equals`: a non-null broker with the same node id, host and port. */
    predicate Equals(other: Broker?)
    {
      other != null && nodeId == other.nodeId && host == other.host && port == other.port
    }

    /** The `Equals(object)` override hands its argument to `object.Equals`, which compares references. */
    predicate EqualsObject(obj: object?)
    {
      this == obj
    }

    /** `operator ==` is `Object.Equals(a, b)`, which ends in the virtual `Equals(object)`. */
    static predicate OperatorEquals(a: Broker?, b: Broker?)
    {
      a == b || (a != null && b != null && a.EqualsObject(b))
    }
  }

  /** The broker filter of the node-id lookups: `x => x.NodeId == id`. */
  function HasNode(id: int): Broker -> bool
  {
    (b: Broker) => b.nodeId == id
  }

  /** The typed `Equals` is an equivalence on brokers and never holds against null. */
  lemma BrokerEqualsIsEquivalence(a: Broker, b: Broker, c: Broker)
    ensures a.Equals(a) && !a.Equals(null)
    ensures a.Equals(b) <==> b.Equals(a)
    ensures a.Equals(b) && b.Equals(c) ==> a.Equals(c)
  {
  }

  /** `==` and `!=` on brokers are reference (in)equality, not value equality. */
  lemma OperatorEqualsIsIdentity(a: Broker?, b: Broker?)
    ensures Broker.OperatorEquals(a, b) <==> a == b
  {
  }

  /** Two separately constructed brokers with the same fields are `Equals` but not `==`. */
  method ValueEqualBrokersAreDistinct(nodeId: int, host: string, port: int) returns (a: Broker, b: Broker)
    ensures a.Equals(b) && !Broker.OperatorEquals(a, b)
  {
    a := new Broker(nodeId, host, port);
    b := new Broker(nodeId, host, port);
  }

  datatype PartitionMetadata = PartitionMetadata(
    partitionErrorCode: ErrorCode,
    partitionId: int,
    leader: int,
    replicas: seq<int>,
    isr: seq<int>)

  datatype TopicMetadata = TopicMetadata(
    topicErrorCode: ErrorCode,
    topicName: string,
    partitionMetadatas: seq<PartitionMetadata>)

  datatype MetadataResponse = MetadataResponse(
    brokers: seq<Broker>,
    topicMetadatas: seq<TopicMetadata>)

  /** The topic-level error codes, in response order. */
  function TopicCodes(topics: seq<TopicMetadata>): seq<ErrorCode>
  {
    seq(|topics|, i requires 0 <= i < |topics| => topics[i].topicErrorCode)
  }

  /** All partitions of the given topics, topic by topic: `SelectMany(x => x.PartitionMetadatas)`. */
  function Partitions(topics: seq<TopicMetadata>): seq<PartitionMetadata>
  {
    if topics == [] then [] else topics[0].partitionMetadatas + Partitions(topics[1..])
  }

  /** The partition-level error codes of `parts`, in order. */
  function PartitionCodes(parts: seq<PartitionMetadata>): seq<ErrorCode>
  {
    seq(|parts|, i requires 0 <= i < |parts| => parts[i].partitionErrorCode)
  }

  /** Every partition of every topic reports `NoError`. */
  ghost predicate AllPartitionsNoError(topics: seq<TopicMetadata>)
  {
    forall t, p :: 0 <= t < |topics| && 0 <= p < |topics[t].partitionMetadatas| ==>
      topics[t].partitionMetadatas[p].partitionErrorCode == NoError
  }

  /** The flattened partition codes are all `NoError` exactly when every partition of every topic is. */
  lemma {:induction false} PartitionCodesNoError(topics: seq<TopicMetadata>)
    ensures AllNoError(PartitionCodes(Partitions(topics))) <==> AllPartitionsNoError(topics)
  {
    if topics != [] {
      var head := topics[0].partitionMetadatas;
      var rest := topics[1..];
      PartitionCodesNoError(rest);
      assert Partitions(topics) == head + Partitions(rest);
      var codes := PartitionCodes(Partitions(topics));
      assert codes == PartitionCodes(head) + PartitionCodes(Partitions(rest));
      assert AllNoError(codes) ==> AllNoError(PartitionCodes(Partitions(rest))) by {
        if AllNoError(codes) {
          forall k | 0 <= k < |PartitionCodes(Partitions(rest))|
            ensures PartitionCodes(Partitions(rest))[k] == NoError
          {
            assert codes[|head| + k] == PartitionCodes(Partitions(rest))[k];
          }
        }
      }
      if AllPartitionsNoError(topics) {
        forall t, p | 0 <= t < |rest| && 0 <= p < |rest[t].partitionMetadatas|
          ensures rest[t].partitionMetadatas[p].partitionErrorCode == NoError
        {
          assert rest[t] == topics[t + 1];
        }
      }
      if AllNoError(PartitionCodes(Partitions(topics))) {
        forall t, p | 0 <= t < |topics| && 0 <= p < |topics[t].partitionMetadatas|
          ensures topics[t].partitionMetadatas[p].partitionErrorCode == NoError
        {
          if t == 0 {
            assert Partitions(topics)[p] == head[p];
            assert PartitionCodes(Partitions(topics))[p] == head[p].partitionErrorCode;
          } else {
            assert topics[t] == rest[t - 1];
          }
        }
      }
    }
  }

  /**
   * `TryThrowFirstErrorOccured`: the first topic-level error if there is one, otherwise the
   * first partition-level error in topic-major order, otherwise the call completes.
   */
  function TryThrowFirstErrorOccured(response: MetadataResponse): (r: Outcome)
    ensures r == Pass <==>
      AllNoError(TopicCodes(response.topicMetadatas)) && AllPartitionsNoError(response.topicMetadatas)
    ensures r.Fail? ==> r.error.ProtocolException? && r.error.code != NoError
    ensures !AllNoError(TopicCodes(response.topicMetadatas)) ==>
      r.Fail? && IsFirstError(TopicCodes(response.topicMetadatas), r.error.code)
    ensures AllNoError(TopicCodes(response.topicMetadatas)) && r.Fail? ==>
      IsFirstError(PartitionCodes(Partitions(response.topicMetadatas)), r.error.code)
  {
    PartitionCodesNoError(response.topicMetadatas);
    match FirstError(TopicCodes(response.topicMetadatas))
    case Some(code) => Fail(ProtocolException(code))
    case None =>
      match FirstError(PartitionCodes(Partitions(response.topicMetadatas)))
      case Some(code) => Fail(ProtocolException(code))
      case None => Pass
  }

  /** A topic-level error wins even over a partition error that comes earlier in the response. */
  lemma TopicErrorWins(response: MetadataResponse, t: nat)
    requires t < |response.topicMetadatas|
    requires response.topicMetadatas[t].topicErrorCode != NoError
    requires forall u :: 0 <= u < t ==> response.topicMetadatas[u].topicErrorCode == NoError
    ensures TryThrowFirstErrorOccured(response) == Fail(ProtocolException(response.topicMetadatas[t].topicErrorCode))
  {
    var codes := TopicCodes(response.topicMetadatas);
    assert codes[t] != NoError;
  }

  /** Ordinal case-insensitive comparison of one character: ASCII letters fold to upper case. */
  function ToUpperAscii(c: char): char
  {
    if 'a' <= c <= 'z' then (c as int - 32) as char else c
  }

  /** `String.Equals(a, b, StringComparison.OrdinalIgnoreCase)` restricted to ASCII: letters a-z and A-Z fold, every other character compares exactly. */
  predicate EqualsIgnoreCase(a: string, b: string)
  {
    |a| == |b| && forall i :: 0 <= i < |a| ==> ToUpperAscii(a[i]) == ToUpperAscii(b[i])
  }

  /** The `Where` filter of the response helpers: the topic's name equals `topic` up to case. */
  function NameMatches(topic: string): TopicMetadata -> bool
  {
    (x: TopicMetadata) => EqualsIgnoreCase(x.topicName, topic)
  }

  /** The partitions of every topic whose name matches `topic` case-insensitively, topic by topic. */
  function PartitionsNamed(topics: seq<TopicMetadata>, topic: string): seq<PartitionMetadata>
  {
    if topics == [] then []
    else
      (if EqualsIgnoreCase(topics[0].topicName, topic) then topics[0].partitionMetadatas else [])
      + PartitionsNamed(topics[1..], topic)
  }

  /** The LINQ chain `Where(name matches).SelectMany(partitions)` yields exactly `PartitionsNamed`. */
  lemma {:induction false} MatchingPartitions(topics: seq<TopicMetadata>, topic: string)
    ensures Partitions(FindAll(topics, NameMatches(topic)))
         == PartitionsNamed(topics, topic)
  {
    var p := NameMatches(topic);
    if topics != [] {
      var first, tail := topics[0], topics[1..];
      assert topics == [first] + tail;
      FindAllConcat([first], tail, p);
      PartitionsConcat(FindAll([first], p), FindAll(tail, p));
      MatchingPartitions(tail, topic);
      assert p(first) == EqualsIgnoreCase(first.topicName, topic);
      assert FindAll([first], p) == if p(first) then [first] else [];
      assert Partitions([first]) == first.partitionMetadatas;
    }
  }

  /** `SelectMany` over a concatenation is the concatenation of the two `SelectMany`s. */
  lemma {:induction false} PartitionsConcat(a: seq<TopicMetadata>, b: seq<TopicMetadata>)
    ensures Partitions(a + b) == Partitions(a) + Partitions(b)
  {
    if a == [] {
      assert a + b == b;
    } else {
      assert (a + b)[0] == a[0] && (a + b)[1..] == a[1..] + b;
      PartitionsConcat(a[1..], b);
    }
  }

  /** Topic names that are equal up to case select the same partitions. */
  lemma {:induction false} PartitionsNamedIgnoresCase(topics: seq<TopicMetadata>, a: string, b: string)
    requires EqualsIgnoreCase(a, b)
    ensures PartitionsNamed(topics, a) == PartitionsNamed(topics, b)
  {
    if topics != [] {
      PartitionsNamedIgnoresCase(topics[1..], a, b);
      assert EqualsIgnoreCase(topics[0].topicName, a) <==> EqualsIgnoreCase(topics[0].topicName, b);
    }
  }

  function PartitionIds(parts: seq<PartitionMetadata>): seq<int>
  {
    seq(|parts|, i requires 0 <= i < |parts| => parts[i].partitionId)
  }

  predicate Sorted(s: seq<int>)
  {
    forall i, j :: 0 <= i < j < |s| ==> s[i] <= s[j]
  }

  /** Insert `x` into the sorted sequence `s` after every element not greater than it. */
  function Insert(x: int, s: seq<int>): (r: seq<int>)
    requires Sorted(s)
    ensures Sorted(r)
    ensures multiset(r) == multiset(s) + multiset{x}
    ensures r[0] == x || (s != [] && r[0] == s[0])
  {
    if s == [] || x <= s[0] then [x] + s
    else
      var tail := Insert(x, s[1..]);
      assert s == [s[0]] + s[1..];
      [s[0]] + tail
  }

  /** `OrderBy(x => x)` on partition ids: a sorted permutation of its input. */
  function SortAscending(s: seq<int>): (r: seq<int>)
    ensures Sorted(r)
    ensures multiset(r) == multiset(s)
  {
    if s == [] then []
    else
      assert s == [s[0]] + s[1..];
      Insert(s[0], SortAscending(s[1..]))
  }

  /**
   * `FindPartitionByTopic`: the ids of all partitions of the case-insensitively matching topics,
   * ascending, duplicates kept.
   */
  function FindPartitionByTopic(response: MetadataResponse, topic: string): (r: seq<int>)
    ensures Sorted(r)
    ensures multiset(r) == multiset(PartitionIds(PartitionsNamed(response.topicMetadatas, topic)))
  {
    MatchingPartitions(response.topicMetadatas, topic);
    var matching := FindAll(response.topicMetadatas, NameMatches(topic));
    SortAscending(PartitionIds(Partitions(matching)))
  }

  /** Two topic names equal up to case give the same partition ids. */
  lemma FindPartitionByTopicIgnoresCase(response: MetadataResponse, a: string, b: string)
    requires EqualsIgnoreCase(a, b)
    ensures FindPartitionByTopic(response, a) == FindPartitionByTopic(response, b)
  {
    MatchingPartitions(response.topicMetadatas, a);
    MatchingPartitions(response.topicMetadatas, b);
    PartitionsNamedIgnoresCase(response.topicMetadatas, a, b);
  }

  /**
   * `SingleOrDefault(p)`: the only element satisfying `p`, nothing if there is none, and an
   * `InvalidOperationException` if there are several.
   */
  function SingleOrDefault<T>(s: seq<T>, p: T -> bool): (r: Result<Option<T>>)
    ensures r == Ok(None) <==> forall i :: 0 <= i < |s| ==> !p(s[i])
    ensures r.Err? <==> HasTwo(s, p)
    ensures r.Err? ==> r.error == InvalidOperationException
    ensures r.Ok? && r.value.Some? ==> r.value.value in s && p(r.value.value)
  {
    var matches := FindAll(s, p);
    FindAllHead(s, p);
    FindAllHasTwo(s, p);
    if |matches| == 0 then Ok(None)
    else if |matches| == 1 then Ok(Some(matches[0]))
    else Err(InvalidOperationException)
  }

  /**
   * `FindBrokerByPartition`: the broker leading the one partition `partition` of the
   * case-insensitively matching topics, null when no broker has that node id.
   */
  function FindBrokerByPartition(response: MetadataResponse, topic: string, partition: int): (r: Result<Broker?>)
    ensures r.Err? ==> r.error == ArgumentOutOfRangeException || r.error == InvalidOperationException
    ensures r == Err(ArgumentOutOfRangeException) <==>
      forall p :: p in PartitionsNamed(response.topicMetadatas, topic) ==> p.partitionId != partition
    ensures r.Ok? ==>
      exists p :: p in PartitionsNamed(response.topicMetadatas, topic) && p.partitionId == partition &&
        (r.value == null <==> forall b :: b in response.brokers ==> b.nodeId != p.leader) &&
        (r.value != null ==> r.value in response.brokers && r.value.nodeId == p.leader)
    ensures r.Ok? ==> !HasTwo(PartitionsNamed(response.topicMetadatas, topic), (p: PartitionMetadata) => p.partitionId == partition)
    ensures HasTwo(PartitionsNamed(response.topicMetadatas, topic), (p: PartitionMetadata) => p.partitionId == partition) ==>
      r == Err(InvalidOperationException)
    ensures forall p ::
      (&& p in PartitionsNamed(response.topicMetadatas, topic) && p.partitionId == partition
       && !HasTwo(PartitionsNamed(response.topicMetadatas, topic), (q: PartitionMetadata) => q.partitionId == partition))
      ==> (r.Err? <==> HasTwo(response.brokers, HasNode(p.leader)))
  {
    MatchingPartitions(response.topicMetadatas, topic);
    var matching := FindAll(response.topicMetadatas, NameMatches(topic));
    match SingleOrDefault(Partitions(matching), (p: PartitionMetadata) => p.partitionId == partition)
    case Err(e) => Err(e)
    case Ok(None) => Err(ArgumentOutOfRangeException)
    case Ok(Some(meta)) =>
      assert forall p :: p in Partitions(matching) && p.partitionId == partition ==> p == meta by {
        forall p | p in Partitions(matching) && p.partitionId == partition ensures p == meta {
          SingleMatch(Partitions(matching), (p: PartitionMetadata) => p.partitionId == partition, p, meta);
        }
      }
      match SingleOrDefault(response.brokers, HasNode(meta.leader))
      case Err(e) => Err(e)
      case Ok(None) => Ok(null)
      case Ok(Some(broker)) => Ok(broker)
  }
}
