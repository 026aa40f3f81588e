/**
 * The Offset response of the Apache Kafka protocol: per topic, per partition, an error code
 * and the offsets found; and its first-error check.
 */
module OffsetProtocol {
  import opened Wrappers
  import opened Errors

  datatype OffsetResponsePartitionOffset = OffsetResponsePartitionOffset(
    partition: int,
    errorCode: ErrorCode,
    offsets: seq<int>)

  datatype OffsetResponseTopicPartition = OffsetResponseTopicPartition(
    topicName: string,
    partitionOffsets: seq<OffsetResponsePartitionOffset>)

  datatype OffsetResponse = OffsetResponse(topicPartitions: seq<OffsetResponseTopicPartition>)

  /** `SelectMany(x => x.PartitionOffsets).Select(x => x.ErrorCode)`: topic-major, then partition order. */
  function ErrorCodes(topics: seq<OffsetResponseTopicPartition>): seq<ErrorCode>
  {
    if topics == [] then []
    else
      var offsets := topics[0].partitionOffsets;
      seq(|offsets|, i requires 0 <= i < |offsets| => offsets[i].errorCode) + ErrorCodes(topics[1..])
  }

  /** Only the error codes of a response, in its own nesting: topic names, ids and offsets dropped. */
  function CodeShape(topics: seq<OffsetResponseTopicPartition>): seq<seq<ErrorCode>>
  {
    seq(|topics|, t requires 0 <= t < |topics| =>
      seq(|topics[t].partitionOffsets|, p requires 0 <= p < |topics[t].partitionOffsets| =>
        topics[t].partitionOffsets[p].errorCode))
  }

  /** Every partition entry of every topic reports `NoError`. */
  ghost predicate AllEntriesNoError(topics: seq<OffsetResponseTopicPartition>)
  {
    forall t, p :: 0 <= t < |topics| && 0 <= p < |topics[t].partitionOffsets| ==>
      topics[t].partitionOffsets[p].errorCode == NoError
  }

  /** The flattened codes are all `NoError` exactly when every entry of every topic is. */
  lemma {:induction false} ErrorCodesNoError(topics: seq<OffsetResponseTopicPartition>)
    ensures AllNoError(ErrorCodes(topics)) <==> AllEntriesNoError(topics)
  {
    if topics != [] {
      var offsets := topics[0].partitionOffsets;
      var head := seq(|offsets|, i requires 0 <= i < |offsets| => offsets[i].errorCode);
      var rest := topics[1..];
      var codes := ErrorCodes(topics);
      ErrorCodesNoError(rest);
      assert codes == head + ErrorCodes(rest);
      if AllNoError(codes) {
        forall k | 0 <= k < |ErrorCodes(rest)| ensures ErrorCodes(rest)[k] == NoError {
          assert codes[|head| + k] == ErrorCodes(rest)[k];
        }
        forall t, p | 0 <= t < |topics| && 0 <= p < |topics[t].partitionOffsets|
          ensures topics[t].partitionOffsets[p].errorCode == NoError
        {
          if t == 0 {
            assert codes[p] == head[p];
          } else {
            assert topics[t] == rest[t - 1];
          }
        }
      }
      if AllEntriesNoError(topics) {
        forall t, p | 0 <= t < |rest| && 0 <= p < |rest[t].partitionOffsets|
          ensures rest[t].partitionOffsets[p].errorCode == NoError
        {
          assert rest[t] == topics[t + 1];
        }
      }
    }
  }

  /**
   * `TryThrowFirstErrorOccured`: throws a protocol exception with the first code that is not
   * `NoError`, in topic-major then partition order; completes when there is none.
   */
  function TryThrowFirstErrorOccured(response: OffsetResponse): (r: Outcome)
    ensures r == Pass <==> AllEntriesNoError(response.topicPartitions)
    ensures r.Fail? ==> r.error.ProtocolException? && r.error.code != NoError
    ensures r.Fail? ==> IsFirstError(ErrorCodes(response.topicPartitions), r.error.code)
  {
    ErrorCodesNoError(response.topicPartitions);
    match FirstError(ErrorCodes(response.topicPartitions))
    case Some(code) => Fail(ProtocolException(code))
    case None => Pass
  }

  /** A response without topics, or whose topics carry no partition entries, never throws. */
  lemma EmptyResponseNeverThrows(response: OffsetResponse)
    requires forall t :: 0 <= t < |response.topicPartitions| ==> response.topicPartitions[t].partitionOffsets == []
    ensures TryThrowFirstErrorOccured(response) == Pass
  {
  }

  /** The flattened codes are the concatenation of the per-topic codes of `CodeShape`. */
  lemma {:induction false} ErrorCodesFollowShape(a: seq<OffsetResponseTopicPartition>, b: seq<OffsetResponseTopicPartition>)
    requires CodeShape(a) == CodeShape(b)
    ensures ErrorCodes(a) == ErrorCodes(b)
  {
    if a != [] {
      assert |a| == |CodeShape(a)| == |CodeShape(b)| == |b|;
      assert CodeShape(a)[0] == CodeShape(b)[0];
      assert CodeShape(a[1..]) == CodeShape(a)[1..];
      assert CodeShape(b[1..]) == CodeShape(b)[1..];
      ErrorCodesFollowShape(a[1..], b[1..]);
      assert ErrorCodes(a) == CodeShape(a)[0] + ErrorCodes(a[1..]);
      assert ErrorCodes(b) == CodeShape(b)[0] + ErrorCodes(b[1..]);
    }
  }

  /** Topic names, partition ids and offsets do not affect the outcome; only the error codes do. */
  lemma OnlyErrorCodesMatter(a: OffsetResponse, b: OffsetResponse)
    requires CodeShape(a.topicPartitions) == CodeShape(b.topicPartitions)
    ensures TryThrowFirstErrorOccured(a) == TryThrowFirstErrorOccured(b)
  {
    ErrorCodesFollowShape(a.topicPartitions, b.topicPartitions);
  }
}
