# Chuye.Kafka topology cache and partition router, in Dafny

This project models the part of the Chuye.Kafka client that decides where a request goes:

- **TopicBrokerDispatcher** is the client's topology cache. It has two append-only lists:
  - `_topics` holds (topic, partition, leader) entries;
  - `_brokers` holds the cluster's brokers, deduplicated by value.

  There are two lookups:
  - `SelectBroker` finds the leader broker for one partition. The cache answers it when it holds an entry
    for that exact (topic, partition) pair.
  - `SelectBrokers` finds the leader brokers for every cached partition of a topic. The cache answers it
    when it holds any entry for the topic.

  Otherwise the lookup makes one Metadata request. If the request succeeds and the response lists a topic,
  the cache appends the partitions of the response's first topic and any brokers it does not yet know. Then
  the lookup is repeated.
- **TopicPartitionDispatcher** keeps a counter per topic. It picks the cached partition at
  `counter % count`, which spreads produce requests round-robin over a topic's partitions.
- **MetadataResponse** and **OffsetResponse** are the Metadata (v0) and Offset responses of the Apache Kafka
  protocol. The model covers their pure queries:
  - the first-error scans `TryThrowFirstErrorOccured`;
  - the partition-id query `FindPartitionByTopic`;
  - the leader lookup `FindBrokerByPartition`;
  - the equality of `Broker`.

Modules, one per file. Three of them (`Wrappers`, `Lists`, `Errors`) are shared by the other four:

| file | module | models |
|---|---|---|
| `wrappers.dfy` | `Wrappers` | `Option` |
| `lists.dfy` | `Lists` | `List.FindIndex`/`Find`, `FindAll`/`Where`, two-match detection for `SingleOrDefault` |
| `errors.dfy` | `Errors` | Kafka error codes (16-bit), the exceptions the core throws, first-error scan |
| `metadata_response.dfy` | `MetadataProtocol` | `Broker` (a class), `TopicMetadata`, `PartitionMetadata`, `MetadataResponse` and their queries |
| `offset_response.dfy` | `OffsetProtocol` | the Offset response records and their error scan |
| `topic_broker_dispatcher.dfy` | `TopicBrokers` | class `TopicBrokerDispatcher` |
| `topic_partition_dispatcher.dfy` | `TopicPartitions` | class `TopicPartitionDispatcher` |

How the C# is represented:

- A thrown exception is an `Err`/`Fail` value carrying the exception kind (`Errors.Exception`).
- `Client.Metadata(topic)` is an input of the lookup, `metadata: Result<MetadataResponse>`, which is either the
  response it returns or the exception it throws.
- `TopicBrokerDispatcher` has a ghost field `fetches`, the topics passed to `Client.Metadata` in call order.
  It is what lets the contracts say "no fetch on a hit" and "exactly one fetch on a miss".
  `TopicPartitionDispatcher` states the same facts through its cache's `fetches`.
- `Broker` is a class. Dafny's `==` on it is reference equality, as C#'s `==` on `Broker` is. `Equals` is the
  typed value comparison.
- The entry list `topics` and the broker list `brokers` are `seq` fields that the methods reassign.
  - The refresh appends to them in two `while` loops, one per `foreach` of the source.
  - `SelectCachedBrokers` fills a fresh `array` in a `for` loop.
  - `Sequential` updates a `map` field.

## Model

| member | source | states |
|---|---|---|
| Lists.FindIndex | src/Chuye.Kafka/Internal/TopicBrokerDispatcher.cs:45 | `List.FindIndex`: the position returned holds a match and no earlier position does; nothing is returned exactly when no element matches |
| Lists.FindAll | src/Chuye.Kafka/Internal/TopicBrokerDispatcher.cs:91 | `List.FindAll`: every element returned comes from the list and matches, and every matching element of the list is returned |
| Lists.FindAllHead | src/Chuye.Kafka/Internal/TopicBrokerDispatcher.cs:91-92 | `FindAll` is empty exactly when `FindIndex` finds nothing; otherwise its first element is the element `FindIndex` points at |
| Lists.FindAllConcat | src/Chuye.Kafka/Internal/TopicBrokerDispatcher.cs:91 | filtering a concatenation is the concatenation of the filtered parts (order is kept) |
| Lists.FindAllKeepsAll | src/Chuye.Kafka/Internal/TopicBrokerDispatcher.cs:91 | a list whose elements all match is returned unchanged, duplicates included |
| Lists.FindAllHasTwo | src/Chuye.Kafka/Protocol/MetadataResponse.cs:50 | `FindAll` returns two or more elements exactly when two positions match, the case in which `SingleOrDefault` throws |
| Lists.HasTwo | src/Chuye.Kafka/Protocol/MetadataResponse.cs:50 | definition: two distinct positions match, the condition under which `SingleOrDefault` throws; its properties are `FindAllHasTwo` and `SingleMatch` |
| Lists.SingleMatch | src/Chuye.Kafka/Protocol/MetadataResponse.cs:50 | when no two positions match, any two matching elements are the same element |
| Errors.AllNoError | src/Chuye.Kafka/Protocol/MetadataResponse.cs:27-28 | definition: every code is `NoError`, i.e. the filtered sequence is empty (`FirstError`) |
| Errors.IsFirstError | src/Chuye.Kafka/Protocol/MetadataResponse.cs:29 | definition, independent of the filter: a code other than `NoError` with only `NoError` before it; `FirstError` returns such a code |
| Errors.NonNoErrors | src/Chuye.Kafka/Protocol/MetadataResponse.cs:27 | definition: `Where(x => x != ErrorCode.NoError)`; its properties are `FirstError` and `FirstErrorConcat` |
| Errors.FirstError | src/Chuye.Kafka/Protocol/MetadataResponse.cs:26-30 | `NonNoErrors` then `Any`/`First`: nothing exactly when every code is `NoError`; otherwise a code other than `NoError` with only `NoError` before it |
| Errors.FirstErrorConcat | src/Chuye.Kafka/Protocol/OffsetResponse.cs:26-28 | the scan over a concatenation finds an error of the first part before any error of the second |
| MetadataProtocol.Broker.constructor | src/Chuye.Kafka/Protocol/MetadataResponse.cs:70-74 | the new broker carries the given node id, host and port |
| MetadataProtocol.Broker.Equals | src/Chuye.Kafka/Protocol/MetadataResponse.cs:92-97 | definition: non-null, and node id, host and port equal; its properties are `BrokerEqualsIsEquivalence` and `ValueEqualBrokersAreDistinct` |
| MetadataProtocol.Broker.EqualsObject | src/Chuye.Kafka/Protocol/MetadataResponse.cs:99-101 | definition: `base.Equals`, reference equality; its property is `OperatorEqualsIsIdentity` |
| MetadataProtocol.Broker.OperatorEquals | src/Chuye.Kafka/Protocol/MetadataResponse.cs:117-123 | definition: `Object.Equals(a, b)`, same reference or `a.Equals((object)b)`; its property is `OperatorEqualsIsIdentity` |
| MetadataProtocol.HasNode | src/Chuye.Kafka/Protocol/MetadataResponse.cs:54 | definition: the filter `x => x.NodeId == id`, also used by `BrokerByNode` |
| MetadataProtocol.BrokerEqualsIsEquivalence | src/Chuye.Kafka/Protocol/MetadataResponse.cs:92-97 | `Equals(Broker)` is false against null, and is reflexive, symmetric and transitive |
| MetadataProtocol.OperatorEqualsIsIdentity | src/Chuye.Kafka/Protocol/MetadataResponse.cs:117-123 | `==` goes through `Object.Equals` to the `Equals(object)` override, which calls `base.Equals`, so it holds exactly for the same reference |
| MetadataProtocol.ValueEqualBrokersAreDistinct | src/Chuye.Kafka/Protocol/MetadataResponse.cs:92-101 | two brokers built from the same fields are `Equals` but not `==` |
| MetadataProtocol.TopicCodes | src/Chuye.Kafka/Protocol/MetadataResponse.cs:26 | definition: `Select(x => x.TopicErrorCode)`; its properties are in `TryThrowFirstErrorOccured` |
| MetadataProtocol.Partitions | src/Chuye.Kafka/Protocol/MetadataResponse.cs:31 | definition: `SelectMany(x => x.PartitionMetadatas)`, topic by topic; its properties are `PartitionsConcat`, `MatchingPartitions` and `PartitionCodesNoError` |
| MetadataProtocol.PartitionCodes | src/Chuye.Kafka/Protocol/MetadataResponse.cs:32 | definition: `Select(x => x.PartitionErrorCode)`; its property is `PartitionCodesNoError` |
| MetadataProtocol.AllPartitionsNoError | src/Chuye.Kafka/Protocol/MetadataResponse.cs:31-34 | definition, independent of the flattening: every partition of every topic reports `NoError`; related to the flattened codes by `PartitionCodesNoError` |
| MetadataProtocol.PartitionCodesNoError | src/Chuye.Kafka/Protocol/MetadataResponse.cs:31-33 | the `SelectMany`-flattened partition codes are all `NoError` exactly when every partition of every topic reports `NoError` |
| MetadataProtocol.TryThrowFirstErrorOccured | src/Chuye.Kafka/Protocol/MetadataResponse.cs:25-37 | completes exactly when every topic code and every partition code is `NoError`; otherwise throws a `ProtocolException` with a code other than `NoError`: the first topic-level error if any topic has one, else the first partition-level error in topic-major order |
| MetadataProtocol.TopicErrorWins | src/Chuye.Kafka/Protocol/MetadataResponse.cs:26-30 | the first topic with an error decides the thrown code, whatever partition errors come before it |
| MetadataProtocol.ToUpperAscii | src/Chuye.Kafka/Protocol/MetadataResponse.cs:41 | definition: ASCII upper-casing, the folding the model uses for `OrdinalIgnoreCase` |
| MetadataProtocol.EqualsIgnoreCase | src/Chuye.Kafka/Protocol/MetadataResponse.cs:41 | definition: `OrdinalIgnoreCase` equality restricted to ASCII case folding; its property is `PartitionsNamedIgnoresCase` |
| MetadataProtocol.NameMatches | src/Chuye.Kafka/Protocol/MetadataResponse.cs:48 | definition: the `Where` filter on the topic name; its property is `MatchingPartitions` |
| MetadataProtocol.PartitionsNamed | src/Chuye.Kafka/Protocol/MetadataResponse.cs:41-42 | definition, independent of `FindAll`: the partitions of the matching topics, in order; related to the LINQ chain by `MatchingPartitions` |
| MetadataProtocol.MatchingPartitions | src/Chuye.Kafka/Protocol/MetadataResponse.cs:41-42 | `Where` by case-insensitive name then `SelectMany` gives, in order, the partitions of exactly the topics whose name matches |
| MetadataProtocol.PartitionsConcat | src/Chuye.Kafka/Protocol/MetadataResponse.cs:42 | `SelectMany` over a concatenation of topic lists is the concatenation of the partitions |
| MetadataProtocol.PartitionsNamedIgnoresCase | src/Chuye.Kafka/Protocol/MetadataResponse.cs:41 | two names equal under ASCII case folding select the same partitions |
| MetadataProtocol.PartitionIds | src/Chuye.Kafka/Protocol/MetadataResponse.cs:43 | definition: `Select(x => x.PartitionId)` |
| MetadataProtocol.Sorted | src/Chuye.Kafka/Protocol/MetadataResponse.cs:44 | definition: ascending order, the promise of `OrderBy(x => x)` |
| MetadataProtocol.Insert | src/Chuye.Kafka/Protocol/MetadataResponse.cs:44 | inserting into a sorted list keeps it sorted and adds exactly one occurrence of the value |
| MetadataProtocol.SortAscending | src/Chuye.Kafka/Protocol/MetadataResponse.cs:44 | `OrderBy(x => x)`: the result is sorted and is a permutation of the input |
| MetadataProtocol.FindPartitionByTopic | src/Chuye.Kafka/Protocol/MetadataResponse.cs:40-45 | the ids of all partitions of all case-insensitively matching topics, in ascending order, with duplicates kept (as a multiset, exactly those ids) |
| MetadataProtocol.FindPartitionByTopicIgnoresCase | src/Chuye.Kafka/Protocol/MetadataResponse.cs:41 | the query gives the same ids for two names that differ only in ASCII letter case |
| MetadataProtocol.SingleOrDefault | src/Chuye.Kafka/Protocol/MetadataResponse.cs:50 | default exactly when nothing matches; `InvalidOperationException` exactly when two positions match; otherwise the matching element |
| MetadataProtocol.FindBrokerByPartition | src/Chuye.Kafka/Protocol/MetadataResponse.cs:47-55 | `ArgumentOutOfRangeException` exactly when no partition of the matching topics has the id. `InvalidOperationException` when two do. When exactly one does, it throws `InvalidOperationException` exactly when two brokers have the leader's node id; otherwise it returns the broker with that node id, or null when there is none |
| OffsetProtocol.ErrorCodes | src/Chuye.Kafka/Protocol/OffsetResponse.cs:26-27 | definition: `SelectMany(x => x.PartitionOffsets).Select(x => x.ErrorCode)`; its properties are `ErrorCodesNoError` and `ErrorCodesFollowShape` |
| OffsetProtocol.CodeShape | src/Chuye.Kafka/Protocol/OffsetResponse.cs:26-27 | definition: the error codes per topic, the only part of the response the scan reads (`OnlyErrorCodesMatter`) |
| OffsetProtocol.AllEntriesNoError | src/Chuye.Kafka/Protocol/OffsetResponse.cs:26-29 | definition, independent of the flattening: every entry of every topic has `NoError`; related to the flattened codes by `ErrorCodesNoError` |
| OffsetProtocol.ErrorCodesNoError | src/Chuye.Kafka/Protocol/OffsetResponse.cs:26-28 | the flattened codes are all `NoError` exactly when every partition entry of every topic is |
| OffsetProtocol.TryThrowFirstErrorOccured | src/Chuye.Kafka/Protocol/OffsetResponse.cs:25-32 | completes exactly when every partition entry of every topic has `NoError`; otherwise throws a `ProtocolException` whose code is not `NoError` and is the first error in topic-major, then partition, order |
| OffsetProtocol.EmptyResponseNeverThrows | src/Chuye.Kafka/Protocol/OffsetResponse.cs:26-29 | a response with no topics, or only topics without partition entries, never throws |
| OffsetProtocol.ErrorCodesFollowShape | src/Chuye.Kafka/Protocol/OffsetResponse.cs:26-27 | two responses with the same error codes per topic flatten to the same code sequence |
| OffsetProtocol.OnlyErrorCodesMatter | src/Chuye.Kafka/Protocol/OffsetResponse.cs:26-27 | topic names, partition ids and offsets do not change the outcome; only the error codes do |
| TopicBrokers.IsEntry | src/Chuye.Kafka/Internal/TopicBrokerDispatcher.cs:45 | definition: the filter `x => x.Name == topic && x.Partition == partition`, ordinal comparison |
| TopicBrokers.IsTopic | src/Chuye.Kafka/Internal/TopicBrokerDispatcher.cs:91 | definition: the filter `x => x.Name == topic`, ordinal comparison |
| TopicBrokers.IsOldestEntry | src/Chuye.Kafka/Internal/TopicBrokerDispatcher.cs:45 | definition, independent of `FindIndex`: position `i` holds a matching entry and no earlier one does; `SelectCached` answers from such an `i` |
| TopicBrokers.BrokerByNode | src/Chuye.Kafka/Internal/TopicBrokerDispatcher.cs:49 | `_brokers.Find(x => x.NodeId == id)`: null exactly when no broker has the id; otherwise the oldest broker that has it |
| TopicBrokers.SelectCached | src/Chuye.Kafka/Internal/TopicBrokerDispatcher.cs:44-54 | null exactly when no entry has that name (ordinal) and partition. Otherwise it uses the oldest such entry: it returns the broker of the entry's leader, or throws `NotImplementedException` exactly when no broker has that node id. It throws nothing else |
| TopicBrokers.EntriesOf | src/Chuye.Kafka/Internal/TopicBrokerDispatcher.cs:91 | definition: `_topics.FindAll(x => x.Name == topic)`; its properties are `EntriesEmpty` and `RefreshedEntries` |
| TopicBrokers.LeaderBrokers | src/Chuye.Kafka/Internal/TopicBrokerDispatcher.cs:95-98 | definition: per entry of the topic, `BrokerByNode` of its leader; `SelectCachedBrokers` fills its array with exactly these |
| TopicBrokers.ContainsBroker | src/Chuye.Kafka/Internal/TopicBrokerDispatcher.cs:70 | definition: `_brokers.Contains(item)` through `IEquatable<Broker>.Equals`, i.e. by value; used by `MergeBrokers` |
| TopicBrokers.DistinctBrokers | src/Chuye.Kafka/Internal/TopicBrokerDispatcher.cs:69-73 | definition: no two brokers value-equal, the invariant the dedup keeps (`MergeBrokersSpec`, `Valid`) |
| TopicBrokers.MergeBrokers | src/Chuye.Kafka/Internal/TopicBrokerDispatcher.cs:69-73 | definition: the broker `foreach`, one step per response broker; its properties are `MergeBrokersSpec`, and `Refresh` computes it in a loop |
| TopicBrokers.Appended | src/Chuye.Kafka/Internal/TopicBrokerDispatcher.cs:66-68 | definition: one entry per response partition, named by the requested topic; its property is `RefreshedEntries` |
| TopicBrokers.FetchError | src/Chuye.Kafka/Internal/TopicBrokerDispatcher.cs:65-66 | definition: the exception of a miss before anything is appended, either the fetch's own or `IndexOutOfRangeException` for a response without topics |
| TopicBrokers.RefreshedTopics | src/Chuye.Kafka/Internal/TopicBrokerDispatcher.cs:65-68 | definition: `_topics` after a miss, unchanged on a fetch error, otherwise with `Appended` added |
| TopicBrokers.RefreshedBrokers | src/Chuye.Kafka/Internal/TopicBrokerDispatcher.cs:65-73 | definition: `_brokers` after a miss, unchanged on a fetch error, otherwise `MergeBrokers` |
| TopicBrokers.OrNotLeader | src/Chuye.Kafka/Internal/TopicBrokerDispatcher.cs:75-78 | definition: no entry after the refresh becomes `ProtocolException(NotLeaderForPartition)` |
| TopicBrokers.EntriesEmpty | src/Chuye.Kafka/Internal/TopicBrokerDispatcher.cs:91-92 | a topic's entry list is empty exactly when no entry has its name |
| TopicBrokers.MergeBrokersSpec | src/Chuye.Kafka/Internal/TopicBrokerDispatcher.cs:69-73 | the broker loop keeps the old list as a prefix, keeps a duplicate-free list duplicate-free even when the response repeats a broker, leaves a value-equal copy of every response broker in the list, and adds only response brokers |
| TopicBrokers.RefreshedEntries | src/Chuye.Kafka/Internal/TopicBrokerDispatcher.cs:66-68 | after the partition loop, a topic's entries are the old ones followed by one per response partition, in response order, undeduplicated, named by the requested topic |
| TopicBrokers.RefreshedLookupAbsent | src/Chuye.Kafka/Internal/TopicBrokerDispatcher.cs:75-77 | a lookup that missed still finds nothing after the refresh exactly when the response lists no partition with that id |
| TopicBrokers.RefreshedLookupFound | src/Chuye.Kafka/Internal/TopicBrokerDispatcher.cs:75-79 | otherwise the repeated lookup answers from the first response partition with that id: its leader's broker, or `NotImplementedException` |
| TopicBrokers.RefreshResolvesLeaders | src/Chuye.Kafka/Internal/TopicBrokerDispatcher.cs:66-73 | when the response lists a broker for each leader it reports, every appended entry resolves to a broker afterwards |
| TopicBrokers.TopicBrokerDispatcher.constructor | src/Chuye.Kafka/Internal/TopicBrokerDispatcher.cs:37-42 | both lists start empty and no fetch has happened |
| TopicBrokers.TopicBrokerDispatcher.Refresh | src/Chuye.Kafka/Internal/TopicBrokerDispatcher.cs:66-73 | the partition list becomes the old one plus one entry per partition of the first topic of the response; the broker list becomes the value-deduplicating merge; brokers stay duplicate-free |
| TopicBrokers.TopicBrokerDispatcher.SelectBroker | src/Chuye.Kafka/Internal/TopicBrokerDispatcher.cs:56-88 | On a hit (an entry exists): no fetch, both lists unchanged, and the cached answer is returned. On a miss: exactly one fetch. A failed fetch, or a response without topics, changes nothing and its exception propagates. Otherwise the refreshed lists are kept, and the lookup result or `NotLeaderForPartition` is returned |
| TopicBrokers.TopicBrokerDispatcher.SelectCachedBrokers | src/Chuye.Kafka/Internal/TopicBrokerDispatcher.cs:90-100 | null exactly when no entry has the topic; otherwise an array with one element per entry of the topic, in insertion order, holding the broker whose node id is that entry's leader, or null |
| TopicBrokers.TopicBrokerDispatcher.SelectBrokers | src/Chuye.Kafka/Internal/TopicBrokerDispatcher.cs:102-134 | The same hit/miss behaviour as `SelectBroker`, over all entries of the topic. Both lists only grow. The refreshed lists are kept when the result is `NotLeaderForPartition` |
| TopicBrokers.RepeatedSelectBroker | src/Chuye.Kafka/Internal/TopicBrokerDispatcher.cs:56-79 | once `SelectBroker` has returned a broker, asking again for the same partition returns the same broker whatever a fetch would return, and two such lookups make at most one fetch |
| TopicPartitions.NextSequence | src/Chuye.Kafka/Internal/TopicPartitionDispatcher.cs:29-31 | definition: the stored counter, or 0 when `TryGetValue` misses, plus one; `Sequential` returns and stores it |
| TopicPartitions.SequenceRun | src/Chuye.Kafka/Internal/TopicPartitionDispatcher.cs:26-37 | definition: the values of k consecutive `Sequential` calls; its property is `SequenceRunCounts` |
| TopicPartitions.SequenceRunCounts | src/Chuye.Kafka/Internal/TopicPartitionDispatcher.cs:26-37 | consecutive calls of `Sequential` return consecutive values, so for a new topic the k-th call returns k (1, 2, 3, ...) |
| TopicPartitions.PartitionIndex | src/Chuye.Kafka/Internal/TopicPartitionDispatcher.cs:23 | for a non-negative counter, `sequence % Count` is a valid position in the list |
| TopicPartitions.IndexDistinct | src/Chuye.Kafka/Internal/TopicPartitionDispatcher.cs:23 | counter values less than n apart select different positions of an n-entry list |
| TopicPartitions.IndexCovers | src/Chuye.Kafka/Internal/TopicPartitionDispatcher.cs:23 | n consecutive counter values reach every position of an n-entry list |
| TopicPartitions.IndexStep | src/Chuye.Kafka/Internal/TopicPartitionDispatcher.cs:23 | the next counter value selects the next position, wrapping from the last to 0 |
| TopicPartitions.RoundRobin | src/Chuye.Kafka/Internal/TopicPartitionDispatcher.cs:21-23 | n consecutive counter values give n different positions, every position is reached, and each next value moves one position on, wrapping to 0 |
| TopicPartitions.Slots | src/Chuye.Kafka/Internal/TopicPartitionDispatcher.cs:23 | definition: the positions reached by n consecutive counter values; its property is `RoundRobin` |
| TopicPartitions.Positions | src/Chuye.Kafka/Internal/TopicPartitionDispatcher.cs:23 | definition: the positions reached by the values of a run; its property is `SequentialRoundRobin` |
| TopicPartitions.Covers | src/Chuye.Kafka/Internal/TopicPartitionDispatcher.cs:23 | definition: every entry of the list occurs among the picks |
| TopicPartitions.RoundCovers | src/Chuye.Kafka/Internal/TopicPartitionDispatcher.cs:23 | picking a list at the positions of as many consecutive counter values as it has entries picks every entry |
| TopicPartitions.SequentialRoundRobin | src/Chuye.Kafka/Internal/TopicPartitionDispatcher.cs:21-31 | while a topic's list stays at n entries, n consecutive selections use every position exactly once |
| TopicPartitions.TopicPartitionDispatcher.constructor | src/Chuye.Kafka/Internal/TopicPartitionDispatcher.cs:14-18 | no counters, and an empty cache |
| TopicPartitions.TopicPartitionDispatcher.Sequential | src/Chuye.Kafka/Internal/TopicPartitionDispatcher.cs:26-37 | returns the stored counter plus one, or 1 for a topic without a counter, and stores it; no other topic's counter changes |
| TopicPartitions.TopicPartitionDispatcher.SelectPartitions | src/Chuye.Kafka/Internal/TopicPartitionDispatcher.cs:39-42 | after the `SelectBrokers` lookup, returns the cached entries of the topic in insertion order, duplicates included (never an empty list); a refresh gives one entry per response partition; a `SelectBrokers` exception propagates |
| TopicPartitions.TopicPartitionDispatcher.SelectSequentialPartition | src/Chuye.Kafka/Internal/TopicPartitionDispatcher.cs:20-24 | the counter advances even when the lookup then throws; on success the result is the entry at `counter % count`, and the count is never zero |
| TopicPartitions.SelectSequentialRun | src/Chuye.Kafka/Internal/TopicPartitionDispatcher.cs:20-31 | `count` consecutive selections on a cached topic make no fetch, leave the cache unchanged, advance the counter by `count`, and the i-th returns the entry at the i-th next counter value modulo the entry count |
| TopicPartitions.SelectRound | src/Chuye.Kafka/Internal/TopicPartitionDispatcher.cs:20-31 | on a topic with n cached entries, n consecutive selections make no fetch and return every entry |

## Left out

- Locking: the `ReaderWriterLockSlim` locks of both dispatchers are not modelled. Each operation is one atomic sequential step.
- `Client.Metadata` is a network call whose code is not part of this model. Its result, a response or an exception, is an input of the lookups.
- Wire encoding: `FetchFrom`, `SaveTo`, `DeserializeContent` and `SerializeContent` call the reader and writer classes, which are not part of this model.
- `Broker.ToUri`, `GetHashCode` and `ToString` are not modelled. They depend on `System.Uri`, on `String.GetHashCode` with unchecked overflow, and on formatting.
- `JoinGroupResponse.cs` is not part of this model; it is serialization plus one comparison.
- Null arrays, null strings and null hosts inside responses are not modelled. Responses are values whose lists are always present.
- `TopicPartitionDispatcher` derives from `TopicBrokerDispatcher` in C#. Here it holds the cache in a field (`cache`), and calls on the base class go through that field.
- TopicPartitions.TopicPartitionDispatcher.Sequential: requires the topic's counter to be below `Int32.MaxValue`. The 32-bit wrap-around after 2^31-1 calls, which would make the index negative, is not modelled.
- TopicPartitions.TopicPartitionDispatcher.SelectSequentialPartition: carries the same counter bound as `Sequential`.
- MetadataProtocol.FindPartitionByTopic: `StringComparison.OrdinalIgnoreCase` is modelled as ASCII case folding only. Non-ASCII letters compare exactly.
- MetadataProtocol.FindBrokerByPartition: the same ASCII-only case folding as `FindPartitionByTopic`.
- The refresh does not inspect the error codes of the Metadata response. It appends the partitions and brokers of any response that has a topic, even one whose topic or partition codes report errors.
- The first counter value for a topic is 1, not 0: `TryGetValue` overwrites the `-1` initialiser with 0 before the increment.
