/**
 * Error codes of the Apache Kafka protocol, the exceptions the modelled code raises, and the
 * "first error occurred" scan that every response type runs before its contents are used.
 */
module Errors {
  import opened Wrappers
  import opened Lists

  /** Error codes travel as a signed 16-bit field. */
  newtype ErrorCode = x: int | -0x8000 <= x < 0x8000

  const NoError: ErrorCode := 0
  const NotLeaderForPartition: ErrorCode := 6

  /** The exceptions that leave the modelled operations. */
  datatype Exception =
    | ProtocolException(code: ErrorCode)
    | NotImplementedException      // a cached partition whose leader is not a known broker
    | ArgumentOutOfRangeException  // FindBrokerByPartition on an unknown partition
    | InvalidOperationException    // SingleOrDefault with more than one match
    | IndexOutOfRangeException     // TopicMetadatas[0] on an empty array
    | ClientException              // whatever the network client throws

  /** The value an operation returns, or the exception it throws. */
  datatype Result<+T> = Ok(value: T) | Err(error: Exception)

  /** A `void` operation either completes or throws. */
  datatype Outcome = Pass | Fail(error: Exception)

  predicate AllNoError(codes: seq<ErrorCode>)
  {
    forall i :: 0 <= i < |codes| ==> codes[i] == NoError
  }

  /** `c` is an error and is the earliest code of `codes` that is not `NoError`. */
  ghost predicate IsFirstError(codes: seq<ErrorCode>, c: ErrorCode)
  {
    c != NoError && exists i :: 0 <= i < |codes| && codes[i] == c && AllNoError(codes[..i])
  }

  /** The codes that are not `NoError`, in order: `codes.Where(x => x != ErrorCode.NoError)`. */
  function NonNoErrors(codes: seq<ErrorCode>): seq<ErrorCode>
  {
    FindAll(codes, (x: ErrorCode) => x != NoError)
  }

  /** `errors.Any() ? errors.First() : nothing` over the filtered codes. */
  function FirstError(codes: seq<ErrorCode>): (r: Option<ErrorCode>)
    ensures r.None? <==> AllNoError(codes)
    ensures r.Some? ==> IsFirstError(codes, r.value)
  {
    var errors := NonNoErrors(codes);
    FindAllHead(codes, (x: ErrorCode) => x != NoError);
    if |errors| > 0 then Some(errors[0]) else None
  }

  /** Scanning a concatenation finds an error of the first part before any of the second. */
  lemma FirstErrorConcat(a: seq<ErrorCode>, b: seq<ErrorCode>)
    ensures FirstError(a + b) == if FirstError(a).Some? then FirstError(a) else FirstError(b)
  {
    FindAllConcat(a, b, (x: ErrorCode) => x != NoError);
  }
}
