/**
 * The partition router: per topic, a counter that advances on every selection, and the
 * partition at `counter mod count` among the cached partitions of the topic.
 */
module TopicPartitions {
  import opened Errors
  import opened MetadataProtocol
  import opened TopicBrokers

  const Int32Max: int := 0x7fff_ffff

  /**
   * What `Sequential(topic)` returns given the counters `sequences`: `TryGetValue` leaves 0
   * in its out-parameter on a miss, replacing the initial -1, and then the value is incremented.
   */
  function NextSequence(sequences: map<string, int>, topic: string): int
  {
    (if topic in sequences then sequences[topic] else 0) + 1
  }

  /** The values returned by `k` consecutive calls of `Sequential(topic)`, starting from `sequences`. */
  function SequenceRun(sequences: map<string, int>, topic: string, k: nat): seq<int>
    decreases k
  {
    if k == 0 then []
    else
      var s := NextSequence(sequences, topic);
      [s] + SequenceRun(sequences[topic := s], topic, k - 1)
  }

  /**
   * Consecutive calls return consecutive values; for a topic never selected before the
   * `k`-th call returns `k` (1, 2, 3, ...), not `k - 1`.
   */
  lemma {:induction false} SequenceRunCounts(sequences: map<string, int>, topic: string, k: nat)
    decreases k
    ensures |SequenceRun(sequences, topic, k)| == k
    ensures forall i :: 0 <= i < k ==> SequenceRun(sequences, topic, k)[i] == NextSequence(sequences, topic) + i
    ensures topic !in sequences ==> forall i :: 0 <= i < k ==> SequenceRun(sequences, topic, k)[i] == i + 1
  {
    if k > 0 {
      var s := NextSequence(sequences, topic);
      SequenceRunCounts(sequences[topic := s], topic, k - 1);
      assert NextSequence(sequences[topic := s], topic) == s + 1;
    }
  }

  /** `sequence % partitions.Count`; the counter is positive, so C#'s truncating `%` agrees with Dafny's. */
  function PartitionIndex(sequence: nat, count: nat): (i: nat)
    requires count > 0
    ensures i < count
  {
    sequence % count
  }

  /** A non-zero multiple of `n` is at least `n` away from zero. */
  lemma MultipleBound(n: int, d: int)
    requires n > 0
    ensures d >= 1 ==> n * d >= n
    ensures d <= -1 ==> n * d <= -n
  {
    if d >= 1 {
      assert n * d == n * (d - 1) + n;
    } else if d <= -1 {
      assert n * d == n * (d + 1) - n;
    }
  }

  /** Division with remainder is unique. */
  lemma ModUnique(x: int, n: int, q: int, r: int)
    requires n > 0 && 0 <= r < n && x == n * q + r
    ensures x % n == r
  {
    MultipleBound(n, q - x / n);
  }

  /** The partition positions reached by the counter values `first .. first + n - 1`. */
  function Slots(first: nat, n: nat): set<nat>
    requires n > 0
  {
    set x | first <= x < first + n :: PartitionIndex(x, n)
  }

  /** The partition positions reached by the counter values in `run`. */
  function Positions(run: seq<int>, n: nat): set<nat>
    requires n > 0
    requires forall i :: 0 <= i < |run| ==> run[i] >= 0
  {
    set i | 0 <= i < |run| :: PartitionIndex(run[i], n)
  }

  /** Distinct counter values less than `n` apart give distinct positions. */
  lemma IndexDistinct(start: nat, n: nat)
    requires n > 0
    ensures forall x, y :: start <= x < y < start + n ==> PartitionIndex(x, n) != PartitionIndex(y, n)
  {
    forall x, y | start <= x < y < start + n ensures PartitionIndex(x, n) != PartitionIndex(y, n) {
      if x % n == y % n {
        ModUnique(y - x, n, y / n - x / n, 0);
        ModUnique(y - x, n, 0, y - x);
      }
    }
  }

  /** `n` consecutive counter values reach every position. */
  lemma IndexCovers(start: nat, n: nat)
    requires n > 0
    ensures forall k :: 0 <= k < n ==> k in Slots(start, n)
  {
    var q0, r0 := start / n, start % n;
    forall k | 0 <= k < n ensures k in Slots(start, n) {
      var x: nat := if k >= r0 then start + (k - r0) else start + (k - r0 + n);
      if k >= r0 {
        ModUnique(x, n, q0, k);
      } else {
        ModUnique(x, n, q0 + 1, k);
      }
      assert start <= x < start + n && PartitionIndex(x, n) == k;
    }
  }

  /** The next counter value moves one position on, wrapping around at the end. */
  lemma IndexStep(n: nat)
    requires n > 0
    ensures forall x: nat :: PartitionIndex(x + 1, n) == (PartitionIndex(x, n) + 1) % n
  {
    forall x: nat ensures PartitionIndex(x + 1, n) == (PartitionIndex(x, n) + 1) % n {
      var q, r := x / n, x % n;
      if r + 1 < n {
        ModUnique(x + 1, n, q, r + 1);
        ModUnique(r + 1, n, 0, r + 1);
      } else {
        ModUnique(x + 1, n, q + 1, 0);
        ModUnique(r + 1, n, 1, 0);
      }
    }
  }

  /**
   * Over the `n` consecutive counter values `start .. start + n - 1` the index into `n`
   * partitions takes every value exactly once, and each next counter value moves the index
   * one step further through the list, wrapping around at the end.
   */
  lemma RoundRobin(start: nat, n: nat)
    requires n > 0
    ensures forall x, y :: start <= x < y < start + n ==> PartitionIndex(x, n) != PartitionIndex(y, n)
    ensures forall k :: 0 <= k < n ==> k in Slots(start, n)
    ensures forall x: nat :: PartitionIndex(x + 1, n) == (PartitionIndex(x, n) + 1) % n
  {
    IndexDistinct(start, n);
    IndexCovers(start, n);
    IndexStep(n);
  }

  /**
   * While a topic's partition list stays at `n` entries, `n` consecutive selections use every
   * position of it exactly once.
   */
  lemma SequentialRoundRobin(sequences: map<string, int>, topic: string, n: nat)
    requires n > 0
    requires topic in sequences ==> sequences[topic] >= 0
    ensures |SequenceRun(sequences, topic, n)| == n
    ensures forall i :: 0 <= i < n ==> SequenceRun(sequences, topic, n)[i] >= 1
    ensures forall i, j :: 0 <= i < j < n ==>
      PartitionIndex(SequenceRun(sequences, topic, n)[i], n) != PartitionIndex(SequenceRun(sequences, topic, n)[j], n)
    ensures forall k :: 0 <= k < n ==> k in Positions(SequenceRun(sequences, topic, n), n)
  {
    var run := SequenceRun(sequences, topic, n);
    var start := NextSequence(sequences, topic);
    SequenceRunCounts(sequences, topic, n);
    RoundRobin(start, n);
    forall k | 0 <= k < n ensures k in Positions(run, n) {
      assert k in Slots(start, n);
      var x :| start <= x < start + n && PartitionIndex(x, n) == k;
      assert run[x - start] == x;
    }
  }

  class TopicPartitionDispatcher {
    const cache: TopicBrokerDispatcher
    var sequences: map<string, int>

    ghost predicate Valid()
      reads this, cache
    {
      cache.Valid() && forall t :: t in sequences ==> 1 <= sequences[t] <= Int32Max
    }

    constructor ()
      ensures Valid() && fresh(cache)
      ensures sequences == map[]
      ensures cache.topics == [] && cache.brokers == [] && cache.fetches == []
    {
      cache := new TopicBrokerDispatcher();
      sequences := map[];
    }

    /** `Sequential`: advance and return the topic's counter; no other topic's counter changes. */
    method Sequential(topic: string) returns (sequence: int)
      requires Valid()
      requires topic in sequences ==> sequences[topic] < Int32Max
      modifies this
      ensures Valid()
      ensures sequence == NextSequence(old(sequences), topic) && 1 <= sequence <= Int32Max
      ensures sequences == old(sequences)[topic := sequence]
    {
      sequence := -1;
      if topic in sequences {
        sequence := sequences[topic];
      } else {
        sequence := 0;
      }
      sequence := sequence + 1;
      sequences := sequences[topic := sequence];
    }

    /**
     * `SelectPartitions`: after a `SelectBrokers` lookup (which refreshes on a miss), the
     * cached entries of `topic`, in insertion order, duplicates kept.
     */
    method SelectPartitions(topic: string, metadata: Result<MetadataResponse>) returns (r: Result<seq<TopicPartition>>)
      requires Valid()
      modifies cache
      ensures Valid() && sequences == old(sequences)
      ensures old(cache.topics) <= cache.topics && old(cache.brokers) <= cache.brokers
      ensures old(EntriesOf(cache.topics, topic)) != [] ==>
        && cache.topics == old(cache.topics) && cache.brokers == old(cache.brokers)
        && cache.fetches == old(cache.fetches)
        && r == Ok(EntriesOf(cache.topics, topic))
      ensures old(EntriesOf(cache.topics, topic)) == [] ==>
        && cache.fetches == old(cache.fetches) + [topic]
        && cache.topics == RefreshedTopics(old(cache.topics), topic, metadata)
        && cache.brokers == RefreshedBrokers(old(cache.brokers), metadata)
        && r == match FetchError(metadata)
                case Some(e) => Err(e)
                case None =>
                  if EntriesOf(cache.topics, topic) == [] then Err(ProtocolException(NotLeaderForPartition))
                  else Ok(EntriesOf(cache.topics, topic))
      ensures old(EntriesOf(cache.topics, topic)) == [] && FetchError(metadata).None? ==>
        EntriesOf(cache.topics, topic) == Appended(topic, metadata.value.topicMetadatas[0].partitionMetadatas)
      ensures r.Ok? ==> r.value != []
    {
      ghost var before := cache.topics;
      var brokers := cache.SelectBrokers(topic, metadata);
      if FetchError(metadata).None? {
        RefreshedEntries(before, topic, metadata.value.topicMetadatas[0].partitionMetadatas);
      }
      if brokers.Err? {
        r := Err(brokers.error);
        return;
      }
      r := Ok(EntriesOf(cache.topics, topic));
    }

    /**
     * `SelectSequentialPartition`: the counter advances first, even when the lookup then
     * throws; the result is the cached entry at `counter % count`, and the count is never zero.
     */
    method SelectSequentialPartition(topic: string, metadata: Result<MetadataResponse>) returns (r: Result<TopicPartition>)
      requires Valid()
      requires topic in sequences ==> sequences[topic] < Int32Max
      modifies this, cache
      ensures Valid()
      ensures sequences == old(sequences)[topic := NextSequence(old(sequences), topic)]
      ensures old(cache.topics) <= cache.topics && old(cache.brokers) <= cache.brokers
      ensures old(EntriesOf(cache.topics, topic)) != [] ==>
        cache.topics == old(cache.topics) && cache.brokers == old(cache.brokers) && cache.fetches == old(cache.fetches)
      ensures old(EntriesOf(cache.topics, topic)) == [] ==>
        && cache.fetches == old(cache.fetches) + [topic]
        && cache.topics == RefreshedTopics(old(cache.topics), topic, metadata)
        && cache.brokers == RefreshedBrokers(old(cache.brokers), metadata)
      ensures r.Ok? ==>
        var parts := EntriesOf(cache.topics, topic);
        parts != [] && r.value == parts[PartitionIndex(NextSequence(old(sequences), topic), |parts|)]
      ensures r.Err? <==>
        old(EntriesOf(cache.topics, topic)) == [] && (FetchError(metadata).Some? || EntriesOf(cache.topics, topic) == [])
      ensures r.Err? ==>
        r.error == match FetchError(metadata) case Some(e) => e case None => ProtocolException(NotLeaderForPartition)
    {
      var sequence := Sequential(topic);
      var partitions := SelectPartitions(topic, metadata);
      if partitions.Err? {
        r := Err(partitions.error);
        return;
      }
      r := Ok(partitions.value[PartitionIndex(sequence, |partitions.value|)]);
    }
  }

  /** Every element of `parts` occurs in `picked`. */
  predicate Covers(picked: seq<TopicPartition>, parts: seq<TopicPartition>)
  {
    forall k :: 0 <= k < |parts| ==> parts[k] in picked
  }

  /** Picking `parts` at the positions of `|parts|` consecutive counter values picks every element of `parts`. */
  lemma RoundCovers(parts: seq<TopicPartition>, picked: seq<TopicPartition>, start: nat)
    requires |picked| == |parts| > 0
    requires forall i :: 0 <= i < |picked| ==> picked[i] == parts[PartitionIndex(start + i, |parts|)]
    ensures Covers(picked, parts)
  {
    var n := |parts|;
    RoundRobin(start, n);
    forall k | 0 <= k < n ensures parts[k] in picked {
      assert k in Slots(start, n);
      var x :| start <= x < start + n && PartitionIndex(x, n) == k;
      var j := x - start;
      assert start + j == x;
      assert picked[j] == parts[PartitionIndex(start + j, n)];
    }
  }

  /**
   * `count` consecutive `SelectSequentialPartition` calls on a topic whose entries are cached:
   * no fetch, and the `i`-th call returns the entry at the `i`-th next counter value.
   */
  method SelectSequentialRun(d: TopicPartitionDispatcher, topic: string, metadata: Result<MetadataResponse>, count: nat)
    returns (picked: seq<TopicPartition>)
    requires d.Valid()
    requires EntriesOf(d.cache.topics, topic) != []
    requires NextSequence(d.sequences, topic) + count <= Int32Max + 1
    modifies d, d.cache
    ensures d.Valid()
    ensures d.cache.topics == old(d.cache.topics) && d.cache.brokers == old(d.cache.brokers)
    ensures d.cache.fetches == old(d.cache.fetches)
    ensures NextSequence(d.sequences, topic) == NextSequence(old(d.sequences), topic) + count
    ensures |picked| == count
    ensures forall i :: 0 <= i < count ==>
      picked[i] == EntriesOf(old(d.cache.topics), topic)[
        PartitionIndex(NextSequence(old(d.sequences), topic) + i, |EntriesOf(old(d.cache.topics), topic)|)]
  {
    var parts := EntriesOf(d.cache.topics, topic);
    var n := |parts|;
    var start: nat := NextSequence(d.sequences, topic);
    picked := [];
    var i := 0;
    while i < count
      invariant 0 <= i <= count && |picked| == i
      invariant d.Valid()
      invariant d.cache.topics == old(d.cache.topics) && d.cache.brokers == old(d.cache.brokers)
      invariant d.cache.fetches == old(d.cache.fetches)
      invariant NextSequence(d.sequences, topic) == start + i
      invariant forall k :: 0 <= k < i ==> picked[k] == parts[PartitionIndex(start + k, n)]
    {
      ghost var sequence := NextSequence(d.sequences, topic);
      var r := d.SelectSequentialPartition(topic, metadata);
      assert r.Ok? && r.value == parts[PartitionIndex(sequence, n)];
      picked := picked + [r.value];
      i := i + 1;
    }
  }

  /**
   * Once a topic's `n` entries are cached, `n` consecutive `SelectSequentialPartition` calls
   * make no fetch, walk the entries in list order from where the counter stands, and return
   * every entry.
   */
  method SelectRound(d: TopicPartitionDispatcher, topic: string, metadata: Result<MetadataResponse>)
    returns (picked: seq<TopicPartition>)
    requires d.Valid()
    requires EntriesOf(d.cache.topics, topic) != []
    requires NextSequence(d.sequences, topic) + |EntriesOf(d.cache.topics, topic)| <= Int32Max + 1
    modifies d, d.cache
    ensures d.Valid()
    ensures d.cache.topics == old(d.cache.topics) && d.cache.fetches == old(d.cache.fetches)
    ensures |picked| == |EntriesOf(old(d.cache.topics), topic)|
    ensures Covers(picked, EntriesOf(old(d.cache.topics), topic))
  {
    var parts := EntriesOf(d.cache.topics, topic);
    ghost var start := NextSequence(d.sequences, topic);
    picked := SelectSequentialRun(d, topic, metadata, |parts|);
    RoundCovers(parts, picked, start);
  }
}
