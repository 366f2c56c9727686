/**
 * `NetstringInput`: an incremental receiver for D. J. Bernstein's netstring
 * format `<length>:<data>,`, fed by one `read()` per call.
 *
 * The file descriptor is not modelled: each call is given what its `read()`
 * returned. A ghost field keeps every byte received so far, and the class
 * invariant states, per state, how those bytes split into a header, a colon,
 * the value and the trailing comma.
 */
module NetstringInput {
  import opened Bytes
  import Decimal

  datatype State = Header | Value | Finished

  /** The `errno` values `Receive` tells apart. */
  datatype Errno = EAGAIN | EINTR | ECONNRESET | OtherErrno(code: int)

  /** What one `fd.Read()` returned: some bytes (none at end of stream), or -1 with `errno`. */
  datatype ReadResult = Received(data: seq<byte>) | ReadError(errno: Errno)

  /** The exceptions the receiver throws. */
  datatype Error =
    | ReadFailed(errno: Errno)   // "read() failed"
    | Malformed                  // "Malformed netstring"
    | TooLarge(size: nat)        // "Netstring is too large"
    | Garbage                    // "Garbage received after netstring"

  /** `Result::MORE`, `CLOSED` and `FINISHED` (here `Complete`), or a thrown error. */
  datatype Result = More | Closed | Complete | Failed(error: Error)

  /** A failed `read()`: try again later, the peer reset the connection, or an error. */
  function ReadFailure(e: Errno): (r: Result)
    ensures r == More <==> e == EAGAIN || e == EINTR
    ensures r == Closed <==> e == ECONNRESET
    ensures r !in {More, Closed} ==> r == Failed(ReadFailed(e))
  {
    match e
    case EAGAIN => More
    case EINTR => More
    case ECONNRESET => Closed
    case OtherErrno(_) => Failed(ReadFailed(e))
  }

  /** What the header received so far says: wait, give up, or start the value after the colon at `colon`. */
  datatype HeaderVerdict = NeedMore | Reject(error: Error) | Start(size: nat, colon: nat)

  /**
   * The checks `ReceiveHeader` makes on the `header` bytes received so far,
   * given the size of the header buffer and the largest accepted length.
   */
  function ParseHeader(header: seq<byte>, capacity: nat, maxSize: nat): (v: HeaderVerdict)
    ensures (header == [] || !Decimal.IsDigit(header[0])) ==> v == Reject(Malformed)
    requires |header| <= capacity
    ensures v == NeedMore <==>
      |header| < capacity && Decimal.AllDigits(header) && header != [] && Decimal.Value(header) <= Decimal.SIZE_MAX
    ensures v.Start? ==>
      0 < v.colon < |header| && header[v.colon] == COLON &&
      Decimal.AllDigits(header[..v.colon]) && Decimal.Value(header[..v.colon]) == v.size &&
      v.size <= maxSize && |header| - (v.colon + 1) <= v.size + 1
    ensures v.Reject? && v.error.TooLarge? ==> v.error.size > maxSize
    ensures Decimal.FromChars(header).OutOfRange? ==> v == Reject(Malformed)
    ensures var p := Decimal.FromChars(header);
      p.Number? && p.end == |header| && |header| == capacity ==> v == Reject(Malformed)
    ensures var p := Decimal.FromChars(header);
      p.Number? && p.end < |header| && header[p.end] != COLON ==> v == Reject(Malformed)
    ensures var p := Decimal.FromChars(header);
      p.Number? && p.end < |header| && header[p.end] == COLON && p.value > maxSize ==> v == Reject(TooLarge(p.value))
    ensures var p := Decimal.FromChars(header);
      (p.Number? && p.end < |header| && header[p.end] == COLON && p.value <= maxSize &&
       |header| - (p.end + 1) > p.value + 1) ==> v == Reject(Garbage)
    ensures var p := Decimal.FromChars(header);
      (p.Number? && p.end < |header| && header[p.end] == COLON && p.value <= maxSize &&
       |header| - (p.end + 1) <= p.value + 1) ==> v == Start(p.value, p.end)
  {
    match Decimal.FromChars(header)
    case NoDigits => Reject(Malformed)
    case OutOfRange(end) =>
      assert end < |header| || header[..end] == header;
      Reject(Malformed)
    case Number(size, end) =>
      if end == |header| then
        assert header[..end] == header;
        assert Decimal.AllDigits(header) && Decimal.Value(header) == size;
        if |header| == capacity then Reject(Malformed) else NeedMore
      else if header[end] != COLON then Reject(Malformed)
      else if size > maxSize then Reject(TooLarge(size))
      else if |header| - (end + 1) > size + 1 then Reject(Garbage)
      else Start(size, end)
  }

  /**
   * `ValueData`'s verdict once `body`, the bytes after the colon, are in the
   * value buffer of `size + 1` bytes: more is needed until it is full, and
   * then its last byte must be the comma.
   */
  function Completion(body: seq<byte>, size: nat): (r: Result)
    requires |body| <= size + 1
    ensures r == Complete <==> |body| == size + 1 && body[size] == COMMA
    ensures r == More <==> |body| < size + 1
    ensures r in {More, Complete, Failed(Malformed)}
  {
    if |body| < size + 1 then More
    else if body[size] != COMMA then Failed(Malformed)
    else Complete
  }

  /** The netstring of `v`: its length in canonical decimal, a colon, `v` and a comma. */
  function Netstring(v: seq<byte>): seq<byte> {
    Decimal.Digits(|v|) + [COLON] + v + [COMMA]
  }

  /**
   * A whole netstring received in the first read is accepted as it is: the
   * header announces exactly the value, and the body completes it.
   */
  lemma ParseNetstring(v: seq<byte>, capacity: nat, maxSize: nat)
    requires |v| <= maxSize <= Decimal.SIZE_MAX && |Netstring(v)| <= capacity
    ensures var n, k := Netstring(v), |Decimal.Digits(|v|)|;
      ParseHeader(n, capacity, maxSize) == Start(|v|, k) &&
      n[k + 1..] == v + [COMMA] && Completion(n[k + 1..], |v|) == Complete
  {
    var d := Decimal.Digits(|v|);
    var rest := [COLON] + v + [COMMA];
    NetstringParts(d, v);
    Decimal.FromCharsOfDigits(|v|, rest);
    ParseAtColon(d + rest, capacity, maxSize, |v|, |d|);
  }

  lemma NetstringParts(d: seq<byte>, v: seq<byte>)
    ensures var n := d + [COLON] + v + [COMMA];
      n == d + ([COLON] + v + [COMMA]) && |n| == |d| + |v| + 2 &&
      n[|d|] == COLON && n[|d| + 1..] == v + [COMMA]
  {
    var n := d + [COLON] + v + [COMMA];
    assert n[|d| + 1..] == v + [COMMA];
  }

  /** The header check when the number is followed by a colon and an acceptable amount. */
  lemma ParseAtColon(n: seq<byte>, capacity: nat, maxSize: nat, size: nat, colon: nat)
    requires Decimal.FromChars(n) == Decimal.Number(size, colon)
    requires colon < |n| <= capacity && n[colon] == COLON && size <= maxSize && |n| - (colon + 1) <= size + 1
    ensures ParseHeader(n, capacity, maxSize) == Start(size, colon)
  {
  }

  lemma SplitAtColon(header: seq<byte>, colon: nat)
    requires colon < |header| && header[colon] == COLON
    ensures header == header[..colon] + [COLON] + header[colon + 1..]
  {
    assert header == header[..colon] + [header[colon]] + header[colon + 1..];
  }

  /** The receiver object; `headerBuffer` is the fixed `header_buffer` array. */
  class NetstringInput {
    const headerBuffer: array<byte>
    const maxSize: nat
    var state: State
    var headerPosition: nat
    var value: array<byte>          // its length is the size `ResizeDiscard` gave it
    var valueSize: nat              // `value.size()`: the length, less the comma once it is erased
    var valuePosition: nat

    ghost var received: seq<byte>   // everything read so far
    ghost var digits: seq<byte>     // the header before the colon, once it is parsed
    ghost var declared: nat         // the length the header announced

    /** The value buffer holds `p` bytes of the body; what was received is the header, the colon and them. */
    ghost predicate ValueFilled(p: nat)
      reads this, value
    {
      value.Length == declared + 1 && valueSize == declared + 1 && p <= valueSize &&
      digits != [] && Decimal.AllDigits(digits) && Decimal.Value(digits) == declared && declared <= maxSize &&
      received == digits + [COLON] + value[..p]
    }

    ghost predicate Valid()
      reads this, headerBuffer, value
    {
      headerBuffer.Length > 0 && value != headerBuffer &&
      match state
      case Header =>
        headerPosition < headerBuffer.Length && received == headerBuffer[..headerPosition] &&
        Decimal.AllDigits(received)
      case Value =>
        ValueFilled(valuePosition) && valuePosition < valueSize
      case Finished =>
        value.Length == declared + 1 && valueSize == declared &&
        digits != [] && Decimal.AllDigits(digits) && Decimal.Value(digits) == declared && declared <= maxSize &&
        received == digits + [COLON] + value[..valueSize] + [COMMA]
    }

    /** A receiver with a header buffer of `headerCapacity` bytes and lengths up to `maxSize`. */
    constructor (headerCapacity: nat, maxSize: nat)
      requires headerCapacity > 0
      ensures Valid() && state == Header && received == []
      ensures headerBuffer.Length == headerCapacity && this.maxSize == maxSize
    {
      headerBuffer := new byte[headerCapacity];
      this.maxSize := maxSize;
      state := Header;
      headerPosition := 0;
      value := new byte[0];
      valueSize := 0;
      valuePosition := 0;
      received := [];
      digits := [];
      declared := 0;
    }

    /** Once finished, what was received is the netstring of the value, up to leading zeros in the header. */
    lemma FinishedIsNetstring()
      requires Valid() && state == Finished
      ensures received == digits + [COLON] + value[..valueSize] + [COMMA]
      ensures Decimal.AllDigits(digits) && Decimal.Value(digits) == |value[..valueSize]| && valueSize <= maxSize
    {
    }

    /** `Receive(fd)`: not to be called once finished. */
    method Receive(r: ReadResult) returns (res: Result)
      requires Valid() && state != Finished
      requires r.Received? && state == Header ==> |r.data| <= headerBuffer.Length - headerPosition
      requires r.Received? && state == Value ==> |r.data| <= valueSize - valuePosition
      modifies this, headerBuffer, value
      ensures res.Failed? || Valid()
      ensures r.ReadError? ==> res == ReadFailure(r.errno)
      ensures r == Received([]) ==> res == Closed
      ensures r.ReadError? || r == Received([]) ==> unchanged(this, headerBuffer) && unchanged(old(value))
      ensures r.Received? ==> received == old(received) + r.data
      ensures old(state) == Header && r.Received? && r.data != [] ==>
        match ParseHeader(received, headerBuffer.Length, maxSize)
        case NeedMore => res == More && state == Header
        case Reject(e) => res == Failed(e)
        case Start(size, colon) =>
          declared == size && digits == received[..colon] && fresh(value) && value.Length == size + 1 &&
          res == Completion(received[colon + 1..], size)
      ensures old(state) == Value && r.Received? && r.data != [] ==>
        valuePosition == old(valuePosition) + |r.data| <= declared + 1 == value.Length &&
        res == Completion(value[..valuePosition], declared)
      ensures res == Complete <==> state == Finished
    {
      if state == Header {
        res := ReceiveHeader(r);
      } else {
        res := ReceiveValue(r);
      }
    }

    /** `ReceiveHeader(fd)`: reads into the rest of the header buffer and parses it from the start. */
    method ReceiveHeader(r: ReadResult) returns (res: Result)
      requires Valid() && state == Header
      requires r.Received? ==> |r.data| <= headerBuffer.Length - headerPosition
      modifies this, headerBuffer
      ensures res.Failed? || Valid()
      ensures r.ReadError? ==> res == ReadFailure(r.errno)
      ensures r == Received([]) ==> res == Closed
      ensures r.ReadError? || r == Received([]) ==> unchanged(this, headerBuffer)
      ensures r.Received? ==> received == old(received) + r.data
      ensures r.Received? && r.data != [] ==>
        match ParseHeader(received, headerBuffer.Length, maxSize)
        case NeedMore => res == More && state == Header
        case Reject(e) => res == Failed(e)
        case Start(size, colon) =>
          declared == size && digits == received[..colon] && fresh(value) && value.Length == size + 1 &&
          res == Completion(received[colon + 1..], size) && (res == Complete <==> state == Finished)
      ensures res == Complete <==> state == Finished
    {
      match r {
        case ReadError(e) =>
          return ReadFailure(e);
        case Received(data) =>
          if data == [] {
            return Closed;
          }
          StoreHeaderBytes(data);
          var verdict := ParseHeader(headerBuffer[..headerPosition], headerBuffer.Length, maxSize);
          match verdict {
            case NeedMore =>
              res := More;
            case Reject(e) =>
              res := Failed(e);
            case Start(size, colon) =>
              res := StartValue(size, colon);
          }
      }
    }

    /** The `read()` into `header_buffer + header_position`, and the position moving past it. */
    method StoreHeaderBytes(data: seq<byte>)
      requires Valid() && state == Header && |data| <= headerBuffer.Length - headerPosition
      modifies this, headerBuffer
      ensures state == Header && value == old(value) && headerPosition == old(headerPosition) + |data|
      ensures received == old(received) + data && received == headerBuffer[..headerPosition]
      ensures headerPosition <= headerBuffer.Length
      ensures unchanged(this`valueSize, this`valuePosition, this`digits, this`declared)
    {
      ghost var before := headerBuffer[..headerPosition];
      forall i | 0 <= i < |data| {
        headerBuffer[headerPosition + i] := data[i];
      }
      assert headerBuffer[..headerPosition + |data|] == before + data by {
        assert headerBuffer[..headerPosition] == before;
      }
      headerPosition := headerPosition + |data|;
      received := received + data;
    }

    /** The end of a well-formed header: the value buffer of `size + 1` bytes takes the bytes after the colon. */
    method StartValue(size: nat, colon: nat) returns (res: Result)
      requires headerBuffer.Length > 0 && value != headerBuffer
      requires headerPosition <= headerBuffer.Length && received == headerBuffer[..headerPosition]
      requires ParseHeader(received, headerBuffer.Length, maxSize) == Start(size, colon)
      modifies this
      ensures res.Failed? || Valid()
      ensures received == old(received)
      ensures declared == size && digits == received[..colon] && fresh(value) && value.Length == size + 1
      ensures res == Completion(received[colon + 1..], size) && (res == Complete <==> state == Finished)
    {
      var rest := headerBuffer[colon + 1..headerPosition];
      value := new byte[size + 1];
      valueSize := size + 1;
      state := Value;
      valuePosition := 0;
      digits := received[..colon];
      declared := size;
      CopyToValue(rest);
      SplitAtColon(received, colon);
      res := ValueData(|rest|);
    }

    /** `memcpy(value.data(), rest.data(), rest.size())`. */
    method CopyToValue(rest: seq<byte>)
      requires |rest| <= value.Length
      modifies value
      ensures value[..|rest|] == rest
    {
      forall i | 0 <= i < |rest| {
        value[i] := rest[i];
      }
    }

    /** `ValueData(nbytes)`: `nbytes` more bytes of the body are in the value buffer. */
    method ValueData(nbytes: nat) returns (res: Result)
      requires headerBuffer.Length > 0 && value != headerBuffer
      requires state == Value && ValueFilled(valuePosition + nbytes)
      modifies this
      ensures res.Failed? || Valid()
      ensures received == old(received) && value == old(value) && digits == old(digits) && declared == old(declared)
      ensures valuePosition == old(valuePosition) + nbytes <= declared + 1 == value.Length
      ensures res == Completion(value[..valuePosition], declared)
      ensures res == Complete <==> state == Finished
    {
      valuePosition := valuePosition + nbytes;
      if valuePosition >= valueSize {
        assert value[..valuePosition] == value[..];
        if value[valueSize - 1] != COMMA {
          return Failed(Malformed);
        }
        // erase the trailing comma
        valueSize := valueSize - 1;
        state := Finished;
        assert value[..] == value[..valueSize] + [COMMA];
        return Complete;
      }
      return More;
    }

    /** `ReceiveValue(fd)`: reads into the rest of the value buffer. */
    method ReceiveValue(r: ReadResult) returns (res: Result)
      requires Valid() && state == Value
      requires r.Received? ==> |r.data| <= valueSize - valuePosition
      modifies this, value
      ensures res.Failed? || Valid()
      ensures r.ReadError? ==> res == ReadFailure(r.errno)
      ensures r == Received([]) ==> res == Closed
      ensures r.ReadError? || r == Received([]) ==> unchanged(this) && unchanged(old(value))
      ensures r.Received? ==> received == old(received) + r.data
      ensures r.Received? && r.data != [] ==>
        valuePosition == old(valuePosition) + |r.data| <= declared + 1 == value.Length &&
        res == Completion(value[..valuePosition], declared)
      ensures res == Complete <==> state == Finished
    {
      match r {
        case ReadError(e) =>
          return ReadFailure(e);
        case Received(data) =>
          if data == [] {
            return Closed;
          }
          StoreValueBytes(data);
          res := ValueData(|data|);
      }
    }

    /** The `read()` into the value buffer at `value_position`; the position itself moves in `ValueData`. */
    method StoreValueBytes(data: seq<byte>)
      requires Valid() && state == Value && |data| <= valueSize - valuePosition
      modifies this`received, value
      ensures headerBuffer.Length > 0 && value != headerBuffer
      ensures state == Value && ValueFilled(valuePosition + |data|) && received == old(received) + data
    {
      ghost var before := value[..valuePosition];
      forall i | 0 <= i < |data| {
        value[valuePosition + i] := data[i];
      }
      assert value[..valuePosition + |data|] == before + data by {
        assert value[..valuePosition] == before;
      }
      received := received + data;
    }
  }
}
