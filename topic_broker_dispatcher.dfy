/**
 * The client's topology cache: which broker leads which partition of which topic. Two
 * append-only lists, filled lazily from one metadata fetch whenever a lookup misses.
 */
module TopicBrokers {
  import opened Wrappers
  import opened Lists
  import opened Errors
  import opened MetadataProtocol

  /** The cache's record that broker `leader` leads partition `partition` of topic `name`. */
  datatype TopicPartition = TopicPartition(name: string, partition: int, leader: int)

  /** The cache's entry filter for one partition: ordinal (case-sensitive) name and exact id. */
  function IsEntry(topic: string, partition: int): TopicPartition -> bool
  {
    (e: TopicPartition) => e.name == topic && e.partition == partition
  }

  /** The cache's entry filter for a topic: ordinal (case-sensitive) name. */
  function IsTopic(topic: string): TopicPartition -> bool
  {
    (e: TopicPartition) => e.name == topic
  }

  /** `i` is the oldest entry of `topics` for `(topic, partition)`. */
  ghost predicate IsOldestEntry(topics: seq<TopicPartition>, topic: string, partition: int, i: int)
  {
    && 0 <= i < |topics|
    && topics[i].name == topic && topics[i].partition == partition
    && forall j :: 0 <= j < i ==> !(topics[j].name == topic && topics[j].partition == partition)
  }

  /** `_brokers.Find(x => x.NodeId == id)`: the oldest broker with node id `id`, or null. */
  function BrokerByNode(brokers: seq<Broker>, id: int): (r: Broker?)
    ensures r == null <==> forall i :: 0 <= i < |brokers| ==> brokers[i].nodeId != id
    ensures r != null ==>
      exists k :: 0 <= k < |brokers| && brokers[k] == r && r.nodeId == id &&
        forall j :: 0 <= j < k ==> brokers[j].nodeId != id
  {
    match FindIndex(brokers, HasNode(id))
    case None => null
    case Some(k) => brokers[k]
  }

  /**
   * `SelectCached`: the leader broker of the oldest entry for `(topic, partition)`; null when
   * there is no entry; `NotImplementedException` when the entry's leader is no known broker.
   */
  function SelectCached(topics: seq<TopicPartition>, brokers: seq<Broker>, topic: string, partition: int): (r: Result<Broker?>)
    ensures r == Ok(null) <==>
      forall i :: 0 <= i < |topics| ==> !(topics[i].name == topic && topics[i].partition == partition)
    ensures r.Err? ==> r.error == NotImplementedException
    ensures r != Ok(null) ==>
      exists i :: IsOldestEntry(topics, topic, partition, i) &&
        (r.Err? <==> BrokerByNode(brokers, topics[i].leader) == null) &&
        (r.Ok? ==> r.value == BrokerByNode(brokers, topics[i].leader))
  {
    match FindIndex(topics, IsEntry(topic, partition))
    case None => Ok(null)
    case Some(i) =>
      assert IsOldestEntry(topics, topic, partition, i);
      var broker := BrokerByNode(brokers, topics[i].leader);
      if broker == null then Err(NotImplementedException) else Ok(broker)
  }

  /** The cache's entries for `topic`, oldest first, duplicates kept: `_topics.FindAll(x => x.Name == topic)`. */
  function EntriesOf(topics: seq<TopicPartition>, topic: string): seq<TopicPartition>
  {
    FindAll(topics, IsTopic(topic))
  }

  /** Per entry of `topic`, oldest first, the broker whose node id is the entry's leader, or null. */
  ghost function LeaderBrokers(topics: seq<TopicPartition>, brokers: seq<Broker>, topic: string): seq<Broker?>
  {
    var entries := EntriesOf(topics, topic);
    seq(|entries|, i requires 0 <= i < |entries| => BrokerByNode(brokers, entries[i].leader))
  }

  /** A topic has no entries exactly when no entry carries its name. */
  lemma EntriesEmpty(topics: seq<TopicPartition>, topic: string)
    ensures EntriesOf(topics, topic) == [] <==> forall i :: 0 <= i < |topics| ==> topics[i].name != topic
  {
    FindAllHead(topics, IsTopic(topic));
    assert forall i :: 0 <= i < |topics| ==> (IsTopic(topic)(topics[i]) <==> topics[i].name == topic);
  }

  /** `_brokers.Contains(item)`: `List<Broker>` compares through `IEquatable<Broker>.Equals`, by value. */
  predicate ContainsBroker(brokers: seq<Broker>, item: Broker)
  {
    exists i | 0 <= i < |brokers| :: brokers[i].Equals(item)
  }

  /** No two brokers of `brokers` are value-equal. */
  ghost predicate DistinctBrokers(brokers: seq<Broker>)
  {
    forall i, j :: 0 <= i < j < |brokers| ==> !brokers[i].Equals(brokers[j])
  }

  /** `known` after the refresh loop over `incoming`: each broker is appended unless a value-equal one is there. */
  function MergeBrokers(known: seq<Broker>, incoming: seq<Broker>): seq<Broker>
  {
    if incoming == [] then known
    else
      var before := MergeBrokers(known, incoming[..|incoming| - 1]);
      var item := incoming[|incoming| - 1];
      if ContainsBroker(before, item) then before else before + [item]
  }

  /**
   * Merging only appends; keeps a duplicate-free list duplicate-free, even when `incoming`
   * repeats a broker; leaves a value-equal copy of every incoming broker in the list; and adds
   * nothing that was not incoming.
   */
  lemma {:induction false} MergeBrokersSpec(known: seq<Broker>, incoming: seq<Broker>)
    ensures known <= MergeBrokers(known, incoming)
    ensures DistinctBrokers(known) ==> DistinctBrokers(MergeBrokers(known, incoming))
    ensures forall k :: 0 <= k < |incoming| ==> ContainsBroker(MergeBrokers(known, incoming), incoming[k])
    ensures forall b :: b in MergeBrokers(known, incoming) ==> b in known || b in incoming
  {
    if incoming != [] {
      var prefix := incoming[..|incoming| - 1];
      var item := incoming[|incoming| - 1];
      var before := MergeBrokers(known, prefix);
      MergeBrokersSpec(known, prefix);
      var after := MergeBrokers(known, incoming);
      assert ContainsBroker(after, item) by {
        if !ContainsBroker(before, item) {
          assert after[|before|].Equals(item);
        }
      }
      forall k | 0 <= k < |incoming| ensures ContainsBroker(after, incoming[k]) {
        if k < |incoming| - 1 {
          assert incoming[k] == prefix[k];
          var i :| 0 <= i < |before| && before[i].Equals(incoming[k]);
          assert after[i] == before[i];
        }
      }
    }
  }

  /** The entries a refresh appends: one per partition of the response, named by the requested topic. */
  function Appended(topic: string, parts: seq<PartitionMetadata>): seq<TopicPartition>
  {
    seq(|parts|, i requires 0 <= i < |parts| => TopicPartition(topic, parts[i].partitionId, parts[i].leader))
  }

  /** The exception a miss raises before touching the cache: the fetch failed, or it returned no topic. */
  function FetchError(metadata: Result<MetadataResponse>): Option<Exception>
  {
    if metadata.Err? then Some(metadata.error)
    else if metadata.value.topicMetadatas == [] then Some(IndexOutOfRangeException)
    else None
  }

  /** `_topics` after a miss whose `Client.Metadata(topic)` call ended as `metadata`. */
  function RefreshedTopics(topics: seq<TopicPartition>, topic: string, metadata: Result<MetadataResponse>): seq<TopicPartition>
  {
    if FetchError(metadata).Some? then topics
    else topics + Appended(topic, metadata.value.topicMetadatas[0].partitionMetadatas)
  }

  /** `_brokers` after a miss whose `Client.Metadata` call ended as `metadata`. */
  function RefreshedBrokers(brokers: seq<Broker>, metadata: Result<MetadataResponse>): seq<Broker>
  {
    if FetchError(metadata).Some? then brokers
    else MergeBrokers(brokers, metadata.value.brokers)
  }

  /** What `SelectBroker` makes of a cache answer: no entry becomes `NotLeaderForPartition`. */
  function OrNotLeader(cached: Result<Broker?>): Result<Broker>
  {
    match cached
    case Err(e) => Err(e)
    case Ok(broker) => if broker == null then Err(ProtocolException(NotLeaderForPartition)) else Ok(broker)
  }

  /**
   * After a refresh the entries of `topic` are the old ones followed by one per partition of
   * the response, in response order, whatever name the response gives the topic.
   */
  lemma RefreshedEntries(topics: seq<TopicPartition>, topic: string, parts: seq<PartitionMetadata>)
    ensures EntriesOf(topics + Appended(topic, parts), topic) == EntriesOf(topics, topic) + Appended(topic, parts)
  {
    FindAllConcat(topics, Appended(topic, parts), IsTopic(topic));
    FindAllKeepsAll(Appended(topic, parts), IsTopic(topic));
  }

  /** A lookup that missed still finds no entry after the refresh exactly when the response does not list the partition. */
  lemma RefreshedLookupAbsent(topics: seq<TopicPartition>, brokers: seq<Broker>, topic: string, partition: int, parts: seq<PartitionMetadata>)
    requires SelectCached(topics, brokers, topic, partition) == Ok(null)
    ensures SelectCached(topics + Appended(topic, parts), brokers, topic, partition) == Ok(null) <==>
      forall k :: 0 <= k < |parts| ==> parts[k].partitionId != partition
  {
    var all := topics + Appended(topic, parts);
    var n := |topics|;
    if forall k :: 0 <= k < |parts| ==> parts[k].partitionId != partition {
      forall i | 0 <= i < |all| ensures !(all[i].name == topic && all[i].partition == partition) {
        if i < n {
          assert all[i] == topics[i];
        } else {
          assert all[i] == Appended(topic, parts)[i - n];
        }
      }
    } else {
      var k :| 0 <= k < |parts| && parts[k].partitionId == partition;
      assert all[n + k] == Appended(topic, parts)[k];
    }
  }

  /**
   * A lookup that missed, repeated after the refresh, answers from the first partition of the
   * response with the requested id: its leader's broker, or `NotImplementedException`.
   */
  lemma RefreshedLookupFound(topics: seq<TopicPartition>, brokers: seq<Broker>, topic: string, partition: int, parts: seq<PartitionMetadata>, k: int)
    requires SelectCached(topics, brokers, topic, partition) == Ok(null)
    requires 0 <= k < |parts| && parts[k].partitionId == partition
    requires forall j :: 0 <= j < k ==> parts[j].partitionId != partition
    ensures SelectCached(topics + Appended(topic, parts), brokers, topic, partition)
      == (if BrokerByNode(brokers, parts[k].leader) == null then Err(NotImplementedException)
          else Ok(BrokerByNode(brokers, parts[k].leader)))
  {
    var all := topics + Appended(topic, parts);
    var n := |topics|;
    var entry := IsEntry(topic, partition);
    assert all[n + k] == Appended(topic, parts)[k];
    assert entry(all[n + k]);
    forall j | 0 <= j < n + k ensures !entry(all[j]) {
      if j < n {
        assert all[j] == topics[j];
      } else {
        assert all[j] == Appended(topic, parts)[j - n];
      }
    }
    assert FindIndex(all, entry) == Some(n + k);
  }

  /**
   * When the response names a broker for every leader it reports, every entry the refresh
   * appends resolves to a broker afterwards.
   */
  lemma RefreshResolvesLeaders(brokers: seq<Broker>, topic: string, response: MetadataResponse)
    requires response.topicMetadatas != []
    requires forall p :: p in response.topicMetadatas[0].partitionMetadatas ==>
      exists b :: b in response.brokers && b.nodeId == p.leader
    ensures forall e :: e in Appended(topic, response.topicMetadatas[0].partitionMetadatas) ==>
      BrokerByNode(MergeBrokers(brokers, response.brokers), e.leader) != null
  {
    var parts := response.topicMetadatas[0].partitionMetadatas;
    var merged := MergeBrokers(brokers, response.brokers);
    MergeBrokersSpec(brokers, response.brokers);
    forall e | e in Appended(topic, parts) ensures BrokerByNode(merged, e.leader) != null {
      var k :| 0 <= k < |parts| && Appended(topic, parts)[k] == e;
      assert parts[k] in parts;
      var b :| b in response.brokers && b.nodeId == parts[k].leader;
      var m :| 0 <= m < |response.brokers| && response.brokers[m] == b;
      var i :| 0 <= i < |merged| && merged[i].Equals(b);
      assert merged[i].nodeId == e.leader;
    }
  }

  class TopicBrokerDispatcher {
    var topics: seq<TopicPartition>
    var brokers: seq<Broker>
    /** The topics handed to `Client.Metadata`, one per call, in call order. */
    ghost var fetches: seq<string>

    ghost predicate Valid()
      reads this
    {
      DistinctBrokers(brokers)
    }

    constructor ()
      ensures Valid()
      ensures topics == [] && brokers == [] && fetches == []
    {
      topics := [];
      brokers := [];
      fetches := [];
    }

    /** The two `foreach` loops of a refresh: append every partition, then every broker not yet known. */
    method Refresh(topic: string, response: MetadataResponse)
      requires Valid()
      requires response.topicMetadatas != []
      modifies this
      ensures Valid()
      ensures topics == old(topics) + Appended(topic, response.topicMetadatas[0].partitionMetadatas)
      ensures brokers == MergeBrokers(old(brokers), response.brokers)
      ensures fetches == old(fetches)
    {
      var parts := response.topicMetadatas[0].partitionMetadatas;
      var i := 0;
      while i < |parts|
        invariant 0 <= i <= |parts|
        invariant topics == old(topics) + Appended(topic, parts[..i])
        invariant brokers == old(brokers) && fetches == old(fetches)
      {
        assert Appended(topic, parts[..i + 1])
            == Appended(topic, parts[..i]) + [TopicPartition(topic, parts[i].partitionId, parts[i].leader)];
        topics := topics + [TopicPartition(topic, parts[i].partitionId, parts[i].leader)];
        i := i + 1;
      }
      assert parts[..i] == parts;
      var j := 0;
      while j < |response.brokers|
        invariant 0 <= j <= |response.brokers|
        invariant brokers == MergeBrokers(old(brokers), response.brokers[..j])
        invariant DistinctBrokers(brokers)
        invariant topics == old(topics) + Appended(topic, parts) && fetches == old(fetches)
      {
        var item := response.brokers[j];
        assert response.brokers[..j + 1][..j] == response.brokers[..j];
        MergeBrokersSpec(old(brokers), response.brokers[..j + 1]);
        if !ContainsBroker(brokers, item) {
          brokers := brokers + [item];
        }
        j := j + 1;
      }
      assert response.brokers[..j] == response.brokers;
    }

    /**
     * `SelectBroker`: answered from the cache when it can be, otherwise after exactly one
     * metadata fetch; `NotLeaderForPartition` when the refreshed cache still has no entry.
     */
    method SelectBroker(topic: string, partition: int, metadata: Result<MetadataResponse>) returns (r: Result<Broker>)
      requires Valid()
      modifies this
      ensures Valid()
      ensures old(topics) <= topics && old(brokers) <= brokers
      ensures old(SelectCached(topics, brokers, topic, partition)) != Ok(null) ==>
        && topics == old(topics) && brokers == old(brokers) && fetches == old(fetches)
        && r == OrNotLeader(old(SelectCached(topics, brokers, topic, partition)))
      ensures old(SelectCached(topics, brokers, topic, partition)) == Ok(null) ==>
        && fetches == old(fetches) + [topic]
        && topics == RefreshedTopics(old(topics), topic, metadata)
        && brokers == RefreshedBrokers(old(brokers), metadata)
        && r == match FetchError(metadata)
                case Some(e) => Err(e)
                case None => OrNotLeader(SelectCached(topics, brokers, topic, partition))
    {
      var cached := SelectCached(topics, brokers, topic, partition);
      if cached != Ok(null) {
        r := OrNotLeader(cached);
        return;
      }
      fetches := fetches + [topic];
      if metadata.Err? {
        r := Err(metadata.error);
        return;
      }
      if metadata.value.topicMetadatas == [] {
        r := Err(IndexOutOfRangeException);
        return;
      }
      MergeBrokersSpec(brokers, metadata.value.brokers);
      Refresh(topic, metadata.value);
      r := OrNotLeader(SelectCached(topics, brokers, topic, partition));
    }

    /**
     * `SelectCachedBrokers`: nothing when no entry has the topic; otherwise, per entry of the
     * topic in insertion order, the broker with the entry's leader as node id, or null.
     */
    method SelectCachedBrokers(topic: string) returns (r: Option<seq<Broker?>>)
      ensures r.None? <==> forall i :: 0 <= i < |topics| ==> topics[i].name != topic
      ensures r.None? <==> EntriesOf(topics, topic) == []
      ensures r.Some? ==>
        var entries := EntriesOf(topics, topic);
        |r.value| == |entries| &&
        forall i :: 0 <= i < |entries| ==> r.value[i] == BrokerByNode(brokers, entries[i].leader)
      ensures r.Some? ==> r.value == LeaderBrokers(topics, brokers, topic)
    {
      var targets := EntriesOf(topics, topic);
      EntriesEmpty(topics, topic);
      if |targets| == 0 {
        return None;
      }
      ghost var leaders := LeaderBrokers(topics, brokers, topic);
      var found := new Broker?[|targets|];
      for i := 0 to |targets|
        invariant forall k :: 0 <= k < i ==> found[k] == leaders[k]
      {
        found[i] := BrokerByNode(brokers, targets[i].leader);
      }
      r := Some(found[..]);
      assert found[..] == leaders;
    }

    /**
     * `SelectBrokers`: the leader broker of every cached partition of `topic`, refreshing once
     * on a miss; `NotLeaderForPartition` when the refresh brings no partition of the topic.
     */
    method SelectBrokers(topic: string, metadata: Result<MetadataResponse>) returns (r: Result<seq<Broker?>>)
      requires Valid()
      modifies this
      ensures Valid()
      ensures old(topics) <= topics && old(brokers) <= brokers
      ensures old(EntriesOf(topics, topic)) != [] ==>
        && topics == old(topics) && brokers == old(brokers) && fetches == old(fetches)
        && r == Ok(LeaderBrokers(topics, brokers, topic))
      ensures old(EntriesOf(topics, topic)) == [] ==>
        && fetches == old(fetches) + [topic]
        && topics == RefreshedTopics(old(topics), topic, metadata)
        && brokers == RefreshedBrokers(old(brokers), metadata)
        && r == match FetchError(metadata)
                case Some(e) => Err(e)
                case None =>
                  if EntriesOf(topics, topic) == [] then Err(ProtocolException(NotLeaderForPartition))
                  else Ok(LeaderBrokers(topics, brokers, topic))
    {
      var cached := SelectCachedBrokers(topic);
      if cached.Some? {
        r := Ok(cached.value);
        return;
      }
      fetches := fetches + [topic];
      if metadata.Err? {
        r := Err(metadata.error);
        return;
      }
      if metadata.value.topicMetadatas == [] {
        r := Err(IndexOutOfRangeException);
        return;
      }
      MergeBrokersSpec(brokers, metadata.value.brokers);
      Refresh(topic, metadata.value);
      cached := SelectCachedBrokers(topic);
      if cached.None? {
        r := Err(ProtocolException(NotLeaderForPartition));
        return;
      }
      r := Ok(cached.value);
    }
  }

  /**
   * Once `SelectBroker` has answered with a broker, the cache holds its entry: asking again
   * returns the same broker without a fetch, whatever a fetch would have returned. Two
   * lookups make at most one fetch.
   */
  method RepeatedSelectBroker(d: TopicBrokerDispatcher, topic: string, partition: int,
                              first: Result<MetadataResponse>, again: Result<MetadataResponse>)
    returns (r1: Result<Broker>, r2: Result<Broker>)
    requires d.Valid()
    modifies d
    ensures d.Valid()
    ensures r1.Ok? ==> r2 == r1
    ensures r1.Ok? ==> |d.fetches| <= |old(d.fetches)| + 1
  {
    r1 := d.SelectBroker(topic, partition, first);
    ghost var fetched := d.fetches;
    r2 := d.SelectBroker(topic, partition, again);
    if r1.Ok? {
      assert d.fetches == fetched;
    }
  }
}
