/**
 * `QmqpClient`: a QMQP request is a list of netstrings sent as one
 * vectored write; the response is one netstring whose first byte says
 * whether the message was accepted ('K'), deferred ('Z') or refused ('D').
 */
module QmqpClient {
  import opened Bytes
  import opened Decimal
  import NetstringInput

  const SUCCESS: byte := 'K' as int
  const TEMPORARY: byte := 'Z' as int
  const PERMANENT: byte := 'D' as int

  /** What the netstring header generator produces for a value of `size` bytes. */
  function Header(size: nat): (h: seq<byte>)
    ensures |h| > 1 && h[|h| - 1] == COLON && AllDigits(h[..|h| - 1])
  {
    var h := Digits(size) + [COLON];
    assert h[..|h| - 1] == Digits(size);
    h
  }

  /** The request segments for `values` appended in order: header, value, ",". */
  function Segments(values: seq<seq<byte>>): (r: seq<seq<byte>>)
    ensures |r| == 3 * |values|
  {
    if values == [] then []
    else
      var v := values[|values| - 1];
      Segments(values[..|values| - 1]) + [Header(|v|), v, [COMMA]]
  }

  /** The bytes of a vectored write: the segments back to back. */
  function Flatten(segments: seq<seq<byte>>): seq<byte> {
    if segments == [] then []
    else Flatten(segments[..|segments| - 1]) + segments[|segments| - 1]
  }

  /** The netstrings of `values`, back to back: the wire form of a request. */
  function Framed(values: seq<seq<byte>>): seq<byte> {
    if values == [] then []
    else Framed(values[..|values| - 1]) + NetstringInput.Netstring(values[|values| - 1])
  }

  /** The segments of a request write exactly its netstrings. */
  lemma {:induction false} SegmentsAreNetstrings(values: seq<seq<byte>>)
    ensures Flatten(Segments(values)) == Framed(values)
  {
    if values != [] {
      var init, v := values[..|values| - 1], values[|values| - 1];
      SegmentsAreNetstrings(init);
      var s0 := Segments(init);
      var s1 := s0 + [Header(|v|)];
      var s2 := s1 + [v];
      var s3 := s2 + [[COMMA]];
      assert s1[..|s1| - 1] == s0 && s2[..|s2| - 1] == s1 && s3[..|s3| - 1] == s2;
      assert Segments(values) == s3;
      assert Flatten(s1) == Flatten(s0) + Header(|v|);
      assert Flatten(s2) == Flatten(s1) + v;
      assert Flatten(s3) == Flatten(s2) + [COMMA];
      assert NetstringInput.Netstring(v) == Header(|v|) + v + [COMMA];
      Append3(Flatten(s0), Header(|v|), v, [COMMA]);
    }
  }

  lemma Append3(a: seq<byte>, b: seq<byte>, c: seq<byte>, d: seq<byte>)
    ensures a + b + c + d == a + (b + c + d)
  {
  }

  class QmqpClient {
    var netstringHeaders: seq<seq<byte>>  // newest first, as `emplace_front` leaves them
    var request: seq<seq<byte>>
    /** What `Commit` handed to the netstring client. */
    var submitted: seq<seq<byte>>
    ghost var values: seq<seq<byte>>

    ghost predicate Valid()
      reads this
    {
      |netstringHeaders| == |values| && request == Segments(values) &&
      forall i :: 0 <= i < |values| ==> netstringHeaders[i] == Header(|values[|values| - 1 - i]|)
    }

    constructor ()
      ensures Valid() && values == [] && request == [] && netstringHeaders == [] && submitted == []
    {
      netstringHeaders := [];
      request := [];
      submitted := [];
      values := [];
    }

    /** `AppendNetstring(value)`: exactly three segments, header, value and ",", in that order. */
    method AppendNetstring(value: seq<byte>)
      requires Valid()
      modifies this
      ensures Valid() && values == old(values) + [value] && submitted == old(submitted)
      ensures request == old(request) + [Header(|value|), value, [COMMA]]
      ensures netstringHeaders == [Header(|value|)] + old(netstringHeaders)
    {
      values := values + [value];
      assert values[..|values| - 1] == old(values);
      var header := Header(|value|);
      netstringHeaders := [header] + netstringHeaders;
      request := request + [header, value, [COMMA]];
    }

    /**
     * `Commit()`: demands at least one appended netstring and hands the
     * request over; what is sent is the values' netstrings in order.
     */
    method Commit()
      requires Valid() && netstringHeaders != [] && request != []
      modifies this`submitted, this`request
      ensures submitted == old(request) && request == []
      ensures Flatten(submitted) == Framed(values)
    {
      SegmentsAreNetstrings(values);
      submitted := request;
      request := [];
    }
  }

  datatype Error =
    | TemporaryFailure(message: seq<byte>)  // `QmqpClientTemporaryFailure`
    | PermanentFailure(message: seq<byte>)  // `QmqpClientPermanentFailure`
    | Malformed                             // "Malformed QMQP response"

  /** The handler callback a response triggers; the datatype makes it exactly one. */
  datatype Callback =
    | OnQmqpClientSuccess(description: seq<byte>)
    | OnQmqpClientError(error: Error)

  /** `OnNetstringResponse(payload)`: classification by the first byte. */
  function OnNetstringResponse(payload: seq<byte>): (c: Callback)
    ensures c.OnQmqpClientSuccess? <==> |payload| > 0 && payload[0] == SUCCESS
    ensures c == OnQmqpClientError(Malformed) <==>
      payload == [] || payload[0] !in {SUCCESS, TEMPORARY, PERMANENT}
    ensures c.OnQmqpClientSuccess? ==> c.description == payload[1..]
    ensures c.OnQmqpClientError? && c.error.TemporaryFailure? <==> |payload| > 0 && payload[0] == TEMPORARY
    ensures c.OnQmqpClientError? && c.error.PermanentFailure? <==> |payload| > 0 && payload[0] == PERMANENT
    ensures c.OnQmqpClientError? && !c.error.Malformed? ==> c.error.message == payload[1..]
  {
    if payload == [] then OnQmqpClientError(Malformed)
    else if payload[0] == SUCCESS then OnQmqpClientSuccess(payload[1..])
    else if payload[0] == TEMPORARY then OnQmqpClientError(TemporaryFailure(payload[1..]))
    else if payload[0] == PERMANENT then OnQmqpClientError(PermanentFailure(payload[1..]))
    else OnQmqpClientError(Malformed)
  }

  /** The response a server sends to cause `c`; defined for every callback but "malformed". */
  function Response(c: Callback): seq<byte>
    requires c != OnQmqpClientError(Malformed)
  {
    match c
    case OnQmqpClientSuccess(d) => [SUCCESS] + d
    case OnQmqpClientError(TemporaryFailure(m)) => [TEMPORARY] + m
    case OnQmqpClientError(PermanentFailure(m)) => [PERMANENT] + m
  }

  /** Every well-formed response is classified back to the callback it encodes ... */
  lemma ClassifyResponse(c: Callback)
    requires c != OnQmqpClientError(Malformed)
    ensures OnNetstringResponse(Response(c)) == c
  {
    assert Response(c)[1..] == (if c.OnQmqpClientSuccess? then c.description else c.error.message);
  }

  /** ... and every payload not classified as malformed is the response of its callback. */
  lemma ResponseOfClassified(payload: seq<byte>)
    requires OnNetstringResponse(payload) != OnQmqpClientError(Malformed)
    ensures Response(OnNetstringResponse(payload)) == payload
  {
    assert payload == [payload[0]] + payload[1..];
  }
}
