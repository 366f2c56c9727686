/**
 * `Net::Log::Datagram`: one access-log record as the logging protocol
 * carries it, with the predicates that decide whether it describes an HTTP
 * access. Pointer fields are `Option`s; `TimePoint()` is 0.
 */
module Datagram {
  import opened Optional

  const U64: nat := 0x1_0000_0000_0000_0000

  type uint64 = x: int | 0 <= x < U64
  type int64 = x: int | -0x8000_0000_0000_0000 <= x < 0x8000_0000_0000_0000

  /** Ticks since the log protocol's epoch; `TimePoint()` is the epoch itself. */
  type TimePoint = int
  type Duration = int

  /** `Net::Log::Type`; the enumerators besides these two are told apart by code only. */
  datatype Type = Unspecified | HttpAccess | OtherType(code: nat)

  datatype Datagram = Datagram(
    timestamp: TimePoint,
    remoteHost: Option<string>, host: Option<string>, site: Option<string>,
    forwardedTo: Option<string>,
    httpUri: Option<string>, httpReferer: Option<string>, userAgent: Option<string>,
    message: string, json: string,
    length: uint64, trafficReceived: uint64, trafficSent: uint64, duration: Duration,
    httpMethod: nat,   // `HttpMethod{}` is 0
    httpStatus: nat,   // `HttpStatus{}` is 0
    kind: Type,
    validLength: bool, validTraffic: bool, validDuration: bool)

  predicate HasTimestamp(d: Datagram) {
    d.timestamp != 0
  }

  predicate HasHttpMethod(d: Datagram) {
    d.httpMethod != 0
  }

  predicate HasHttpStatus(d: Datagram) {
    d.httpStatus != 0
  }

  /**
   * An unspecified record looks like an HTTP access when it has a URI and a
   * method, and a status or traffic: cancelled requests have traffic but no
   * status, error messages have neither.
   */
  /**
   * `GuessIsHttpAccess()`: a URI and a method, and a status or traffic. So a
   * cancelled request (no status, but traffic) is an access, and an error
   * message (neither status nor traffic) is not.
   */
  predicate GuessIsHttpAccess(d: Datagram)
    ensures GuessIsHttpAccess(d) ==> d.httpUri.Some? && HasHttpMethod(d)
    ensures d.httpUri.Some? && HasHttpMethod(d) && !HasHttpStatus(d) && d.validTraffic ==> GuessIsHttpAccess(d)
    ensures !HasHttpStatus(d) && !d.validTraffic ==> !GuessIsHttpAccess(d)
  {
    d.httpUri.Some? && HasHttpMethod(d) && (HasHttpStatus(d) || d.validTraffic)
  }

  /** `IsHttpAccess()`: the declared type, and the guess only when no type was declared. */
  predicate IsHttpAccess(d: Datagram)
    ensures d.kind == HttpAccess ==> IsHttpAccess(d)
    ensures IsHttpAccess(d) ==> d.kind == HttpAccess || (d.kind == Unspecified && GuessIsHttpAccess(d))
  {
    d.kind == HttpAccess || (d.kind == Unspecified && GuessIsHttpAccess(d))
  }

  /** `Datagram()`: nothing set, the numeric fields marked invalid. */
  function Default(): (d: Datagram)
    ensures d.kind == Unspecified && !HasTimestamp(d) && !IsHttpAccess(d)
    ensures !d.validLength && !d.validTraffic && !d.validDuration
    ensures d.httpUri.None? && d.remoteHost.None? && d.message == [] && d.json == []
  {
    Datagram(0, None, None, None, None, None, None, None, [], [], 0, 0, 0, 0, 0, 0, Unspecified, false, false, false)
  }

  /** `Datagram(type)` */
  function OfType(t: Type): (d: Datagram)
    ensures d.kind == t && !HasTimestamp(d)
    ensures IsHttpAccess(d) <==> t == HttpAccess
  {
    Default().(kind := t)
  }

  /** `Datagram(type, message)` */
  function WithMessage(t: Type, message: string): (d: Datagram)
    ensures d.kind == t && d.message == message && !HasTimestamp(d)
    ensures IsHttpAccess(d) <==> t == HttpAccess
  {
    Default().(kind := t, message := message)
  }

  /**
   * The constructor for an HTTP access: the signed length is stored in the
   * unsigned field, two's complement, and is valid only if not negative;
   * traffic and duration are always valid.
   */
  function Http(timestamp: TimePoint, httpMethod: nat, uri: Option<string>,
                remoteHost: Option<string>, host: Option<string>, site: Option<string>,
                referer: Option<string>, userAgent: Option<string>,
                httpStatus: nat, length: int64,
                trafficReceived: uint64, trafficSent: uint64, duration: Duration): (d: Datagram)
    ensures d.kind == HttpAccess && IsHttpAccess(d)
    ensures d.validLength <==> length >= 0
    ensures d.validTraffic && d.validDuration
    ensures length >= 0 ==> d.length == length
    ensures length < 0 ==> d.length == U64 + length
    ensures d.timestamp == timestamp && d.httpUri == uri && d.httpMethod == httpMethod && d.httpStatus == httpStatus
    ensures d.trafficReceived == trafficReceived && d.trafficSent == trafficSent && d.duration == duration
    ensures d.remoteHost == remoteHost && d.host == host && d.site == site
    ensures d.httpReferer == referer && d.userAgent == userAgent
    ensures d.forwardedTo.None? && d.message == [] && d.json == []
  {
    Datagram(timestamp, remoteHost, host, site, None, uri, referer, userAgent, [], [],
             length % U64, trafficReceived, trafficSent, duration,
             httpMethod, httpStatus, HttpAccess, length >= 0, true, true)
  }

  /** `SetTimestamp(t)`: only the timestamp changes. */
  function SetTimestamp(d: Datagram, t: TimePoint): (r: Datagram)
    ensures HasTimestamp(r) <==> t != 0
    ensures r.timestamp == t
  {
    d.(timestamp := t)
  }

  /** Setting the timestamp never changes whether a record is an HTTP access. */
  lemma SetTimestampKeepsClass(d: Datagram, t: TimePoint)
    ensures IsHttpAccess(SetTimestamp(d, t)) == IsHttpAccess(d)
    ensures SetTimestamp(d, t).(timestamp := d.timestamp) == d
  {
  }

  /** A record of any other explicit type is never an HTTP access, whatever its fields. */
  lemma OtherTypeNeverHttp(d: Datagram)
    requires d.kind.OtherType?
    ensures !IsHttpAccess(d)
  {
  }

  /**
   * An unspecified record is classified by the guess alone: a cancelled
   * request (no status, traffic) is an access, an error message (no status,
   * no traffic) is not.
   */
  lemma UnspecifiedByGuess(d: Datagram)
    requires d.kind == Unspecified
    ensures IsHttpAccess(d) <==> d.httpUri.Some? && d.httpMethod != 0 && (d.httpStatus != 0 || d.validTraffic)
    ensures d.httpStatus == 0 && !d.validTraffic ==> !IsHttpAccess(d)
    ensures d.httpUri.Some? && d.httpMethod != 0 && d.httpStatus == 0 && d.validTraffic ==> IsHttpAccess(d)
  {
  }
}
