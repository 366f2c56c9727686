/**
 * `Systemd::ResolveHostname`: one varlink call to systemd-resolved over a
 * local stream socket. The request is a JSON object terminated by a null
 * byte; the reply is one such message, whose first address becomes an
 * IPv4 or IPv6 socket address. JSON values are abstract: parsing and
 * dumping are parameters of the model.
 */
module ResolvedClient {
  import opened Bytes
  import SocketEvent

  const AF_INET: int := 2
  const AF_INET6: int := 10
  /** `sizeof(buffer)` in `OnSocketReady()`. */
  const RECEIVE_SIZE: nat := 4096

  datatype Json =
    | JNull
    | JBool(b: bool)
    | JInt(i: int)
    | JString(s: string)
    | JArray(items: seq<Json>)
    | JObject(members: map<string, Json>)

  datatype Error =
    | MalformedResponse                 // "Malformed response"
    | ParseError                        // `json::parse` throws
    | ResolvedError(error: Json)        // "systemd-resolved error: …"
    | JsonError                         // `at()` or `get()` throws
    | MalformedIPv4                     // "Malformed IPv4 address"
    | MalformedIPv6                     // "Malformed IPv6 address"
    | UnsupportedFamily                 // "Unsupported address family"
    | ClosedPrematurely                 // `SocketClosedPrematurelyError`
    | ReceiveFailed(errno: nat)         // "Failed to receive"
    | SendFailed(errno: nat)            // "Failed to send"

  datatype Result<T> = Ok(value: T) | Err(error: Error)

  /** `uint_least16_t port`: the port every address is built with. */
  type Port = p: nat | p < 0x1_0000

  datatype Address =
    | IPv4Address(octets: seq<int>, port: Port)
    | IPv6Address(groups: seq<int>, port: Port, scope: nat)

  /** The handler callback a request ends with. */
  datatype Callback = OnResolveHostname(address: Address) | OnResolveHostnameError(error: Error)

  /** `JsonResolveHostname(hostname)` */
  function Request(hostname: string): (j: Json)
    ensures AtKey(j, "method") == Ok(JString("io.systemd.Resolve.ResolveHostname"))
    ensures AtKey(j, "parameters").Ok? && AtKey(AtKey(j, "parameters").value, "name") == Ok(JString(hostname))
    ensures AtKey(j, "parameters").Ok? && AtKey(AtKey(j, "parameters").value, "flags") == Ok(JInt(0))
    ensures Size(j) == 2 && Size(AtKey(j, "parameters").value) == 2
  {
    JObject(map[
      "method" := JString("io.systemd.Resolve.ResolveHostname"),
      "parameters" := JObject(map["name" := JString(hostname), "flags" := JInt(0)])])
  }

  /**
   * `SerializeResolveHostname(hostname)`: the dumped JSON text and exactly
   * one null byte; valid JSON text, which `dump` yields, holds none.
   */
  function Serialize(hostname: string, dump: Json -> seq<byte>): (s: seq<byte>)
    requires NUL !in dump(Request(hostname))
    ensures |s| > 0 && s[|s| - 1] == NUL && s[..|s| - 1] == dump(Request(hostname))
    ensures forall i :: 0 <= i < |s| - 1 ==> s[i] != NUL
  {
    dump(Request(hostname)) + [NUL]
  }

  /** The message framing of `OnResponse`: the text before the trailing null byte. */
  function Unframe(s: seq<byte>): (r: Result<seq<byte>>)
    requires |s| > 0
    ensures r.Ok? <==> s[|s| - 1] == NUL
    ensures r.Ok? ==> s == r.value + [NUL]
    ensures r.Err? ==> r.error == MalformedResponse
  {
    if s[|s| - 1] != NUL then Err(MalformedResponse) else Ok(s[..|s| - 1])
  }

  /** The framing the reply is expected in is the one the request is sent in. */
  lemma UnframeSerialized(hostname: string, dump: Json -> seq<byte>)
    requires NUL !in dump(Request(hostname))
    ensures Unframe(Serialize(hostname, dump)) == Ok(dump(Request(hostname)))
  {
  }

  /** `j.size()`: elements of an array, members of an object, 0 for null, 1 otherwise. */
  function Size(j: Json): nat {
    match j
    case JNull => 0
    case JArray(items) => |items|
    case JObject(members) => |members|
    case _ => 1
  }

  /** `j.at(key)` */
  function AtKey(j: Json, key: string): (r: Result<Json>)
    ensures r.Ok? <==> j.JObject? && key in j.members
  {
    if j.JObject? && key in j.members then Ok(j.members[key]) else Err(JsonError)
  }

  /** `j.at(index)` */
  function AtIndex(j: Json, index: nat): (r: Result<Json>)
    ensures r.Ok? <==> j.JArray? && index < |j.items|
  {
    if j.JArray? && index < |j.items| then Ok(j.items[index]) else Err(JsonError)
  }

  /** `j.get<T>()` for an unsigned `T` of `bits` bits: numbers and booleans convert, modulo 2^bits. */
  function GetUnsigned(j: Json, modulus: nat): (r: Result<int>)
    requires modulus > 1
    ensures r.Ok? ==> 0 <= r.value < modulus
    ensures r.Ok? <==> j.JInt? || j.JBool?
  {
    match j
    case JInt(i) => Ok(i % modulus)
    case JBool(b) => Ok(if b then 1 else 0)
    case _ => Err(JsonError)
  }

  /** `j.get<int>()`: numbers and booleans convert, an integer wrapping to 32-bit two's complement. */
  function GetInt(j: Json): (r: Result<int>)
    ensures r.Ok? <==> j.JInt? || j.JBool?
    ensures r.Ok? ==> -0x8000_0000 <= r.value < 0x8000_0000
    ensures j.JInt? ==> (r.value - j.i) % 0x1_0000_0000 == 0
  {
    match j
    case JInt(i) =>
      var m := i % 0x1_0000_0000;
      Ok(if m < 0x8000_0000 then m else m - 0x1_0000_0000)
    case JBool(b) => Ok(if b then 1 else 0)
    case _ => Err(JsonError)
  }

  /** An integer that fits in 32 bits comes back unchanged; any other one differs from it by a multiple of 2^32. */
  lemma GetIntInRange(i: int, k: int)
    requires -0x8000_0000 <= i < 0x8000_0000
    ensures GetInt(JInt(i + k * 0x1_0000_0000)) == Ok(i)
  {
    var m := (i + k * 0x1_0000_0000) % 0x1_0000_0000;
    assert m == i % 0x1_0000_0000;
    if i >= 0 {
      assert m == i;
    } else {
      assert m == i + 0x1_0000_0000;
    }
  }

  /** The octets `get<uint8_t>()` makes of `j[0..n]`, or the first element's error. */
  function Octets(j: Json, n: nat, modulus: nat): (r: Result<seq<int>>)
    requires j.JArray? && n <= |j.items| && modulus > 1
    ensures r.Ok? ==> |r.value| == n && forall k :: 0 <= k < n ==> Ok(r.value[k]) == GetUnsigned(j.items[k], modulus)
    ensures r.Ok? <==> forall k :: 0 <= k < n ==> GetUnsigned(j.items[k], modulus).Ok?
  {
    if n == 0 then Ok([])
    else
      match Octets(j, n - 1, modulus)
      case Err(e) => Err(e)
      case Ok(init) =>
        match GetUnsigned(j.items[n - 1], modulus)
        case Err(e) => Err(e)
        case Ok(b) => Ok(init + [b])
  }

  /** `ToIPv4Address(j, port)`: exactly four elements, each one octet. */
  function ToIPv4Address(j: Json, port: Port): (r: Result<Address>)
    ensures Size(j) != 4 ==> r == Err(MalformedIPv4)
    ensures r.Ok? ==> j.JArray? && |j.items| == 4 && r.value.IPv4Address? && r.value.port == port && |r.value.octets| == 4
    ensures r.Ok? ==> forall k :: 0 <= k < 4 ==> Ok(r.value.octets[k]) == GetUnsigned(j.items[k], 256)
  {
    if Size(j) != 4 then Err(MalformedIPv4)
    else if !j.JArray? then Err(JsonError)
    else
      match Octets(j, 4, 256)
      case Err(e) => Err(e)
      case Ok(octets) => Ok(IPv4Address(octets, port))
  }

  /** Bitwise or of two naturals. */
  function BitOr(a: nat, b: nat): nat
    decreases a + b
  {
    if a == 0 then b
    else if b == 0 then a
    else 2 * BitOr(a / 2, b / 2) + (if a % 2 == 1 || b % 2 == 1 then 1 else 0)
  }

  function Pow2(k: nat): (p: nat)
    ensures p > 0
  {
    if k == 0 then 1 else 2 * Pow2(k - 1)
  }

  /** Or-ing in bits below the lowest bit of `hi * 2^k` adds them. */
  lemma {:induction false} BitOrDisjoint(hi: nat, lo: nat, k: nat)
    requires lo < Pow2(k)
    ensures BitOr(hi * Pow2(k), lo) == hi * Pow2(k) + lo
  {
    if k > 0 && hi != 0 && lo != 0 {
      var a := hi * Pow2(k);
      assert a == 2 * (hi * Pow2(k - 1));
      assert a / 2 == hi * Pow2(k - 1) && a % 2 == 0;
      BitOrDisjoint(hi, lo / 2, k - 1);
    }
  }

  /** One IPv6 group: `(hi << 8) | lo` cast to 16 bits. */
  function Group(hi: int, lo: int): (g: int)
    requires 0 <= hi < 0x1_0000 && 0 <= lo < 0x1_0000
    ensures 0 <= g < 0x1_0000
  {
    BitOr(hi * 256, lo) % 0x1_0000
  }

  /** For octet inputs the group is their big-endian value. */
  lemma GroupOfOctets(hi: int, lo: int)
    requires 0 <= hi < 256 && 0 <= lo < 256
    ensures Group(hi, lo) == hi * 256 + lo
  {
    assert Pow2(8) == 256;
    BitOrDisjoint(hi, lo, 8);
  }

  /** The eight groups of a sixteen-element array of 16-bit values. */
  function Groups(w: seq<int>): (g: seq<int>)
    requires |w| == 16 && forall k :: 0 <= k < 16 ==> 0 <= w[k] < 0x1_0000
    ensures |g| == 8 && forall k :: 0 <= k < 8 ==> g[k] == Group(w[2 * k], w[2 * k + 1])
  {
    seq(8, k requires 0 <= k < 8 => Group(w[2 * k], w[2 * k + 1]))
  }

  /** `ToIPv6Address(j, port, ifindex)`: exactly sixteen elements, paired into eight groups. */
  function ToIPv6Address(j: Json, port: Port, ifindex: nat): (r: Result<Address>)
    ensures Size(j) != 16 ==> r == Err(MalformedIPv6)
    ensures r.Ok? ==> j.JArray? && |j.items| == 16 && r.value.IPv6Address?
    ensures r.Ok? ==> r.value.port == port && r.value.scope == ifindex && |r.value.groups| == 8
  {
    if Size(j) != 16 then Err(MalformedIPv6)
    else if !j.JArray? then Err(JsonError)
    else
      match Octets(j, 16, 0x1_0000)
      case Err(e) => Err(e)
      case Ok(w) => Ok(IPv6Address(Groups(w), port, ifindex))
  }

  /** An IPv6 array of octets gives groups b[2k]·256 + b[2k+1]. */
  lemma IPv6FromOctets(j: Json, port: Port, ifindex: nat, b: seq<int>)
    requires |b| == 16 && j == JArray(seq(16, k requires 0 <= k < 16 => JInt(b[k])))
    requires forall k :: 0 <= k < 16 ==> 0 <= b[k] < 256
    ensures ToIPv6Address(j, port, ifindex).Ok?
    ensures var a := ToIPv6Address(j, port, ifindex).value;
      forall k :: 0 <= k < 8 ==> a.groups[k] == b[2 * k] * 256 + b[2 * k + 1]
  {
    assert forall k :: 0 <= k < 16 ==> GetUnsigned(j.items[k], 0x1_0000) == Ok(b[k]);
    var w := Octets(j, 16, 0x1_0000).value;
    assert forall k :: 0 <= k < 16 ==> w[k] == b[k];
    forall k | 0 <= k < 8
      ensures Group(w[2 * k], w[2 * k + 1]) == b[2 * k] * 256 + b[2 * k + 1]
    {
      GroupOfOctets(b[2 * k], b[2 * k + 1]);
    }
  }

  /** `ifindex`: the member's value as 32 bits, 0 when absent. */
  function IfIndex(a: Json): (r: Result<nat>)
    requires a.JObject?
    ensures "ifindex" !in a.members ==> r == Ok(0)
  {
    if "ifindex" !in a.members then Ok(0)
    else
      match GetUnsigned(a.members["ifindex"], 0x1_0000_0000)
      case Err(e) => Err(e)
      case Ok(i) => Ok(i)
  }

  /** The first entry of `parameters.addresses`. */
  function FirstAddress(j: Json): Result<Json> {
    match AtKey(j, "parameters")
    case Err(e) => Err(e)
    case Ok(p) =>
      match AtKey(p, "addresses")
      case Err(e) => Err(e)
      case Ok(list) => AtIndex(list, 0)
  }

  /** An entry whose "address", "ifindex" and "family" members can all be read. */
  predicate EntryReadable(a: Json) {
    a.JObject? && "address" in a.members && IfIndex(a).Ok? && "family" in a.members
  }

  /** The address the first entry describes, by its family. */
  function FromEntry(a: Json, port: Port): (r: Result<Address>)
    ensures r.Ok? ==> a.JObject? && "family" in a.members && "address" in a.members
    ensures r.Ok? && r.value.IPv4Address? ==> GetInt(a.members["family"]) == Ok(AF_INET)
    ensures r.Ok? && r.value.IPv6Address? ==> GetInt(a.members["family"]) == Ok(AF_INET6)
    ensures EntryReadable(a) && GetInt(a.members["family"]) == Ok(AF_INET) ==>
      r == ToIPv4Address(a.members["address"], port)
    ensures EntryReadable(a) && GetInt(a.members["family"]) == Ok(AF_INET6) ==>
      r == ToIPv6Address(a.members["address"], port, IfIndex(a).value)
    ensures EntryReadable(a) && GetInt(a.members["family"]).Ok? &&
            GetInt(a.members["family"]).value !in {AF_INET, AF_INET6} ==>
      r == Err(UnsupportedFamily)
    ensures EntryReadable(a) && GetInt(a.members["family"]).Err? ==> r == Err(JsonError)
  {
    match AtKey(a, "address")
    case Err(e) => Err(e)
    case Ok(address) =>
      match IfIndex(a)
      case Err(e) => Err(e)
      case Ok(ifindex) =>
        match AtKey(a, "family")
        case Err(e) => Err(e)
        case Ok(family) =>
          match GetInt(family)
          case Err(e) => Err(e)
          case Ok(f) =>
            if f == AF_INET then ToIPv4Address(address, port)
            else if f == AF_INET6 then ToIPv6Address(address, port, ifindex)
            else Err(UnsupportedFamily)
  }

  /** A family that is AF_INET plus a multiple of 2^32 is AF_INET once `get<int>()` has narrowed it. */
  lemma WrappedFamilyIsIPv4(a: Json, port: Port, k: int)
    requires EntryReadable(a) && a.members["family"] == JInt(AF_INET + k * 0x1_0000_0000)
    ensures FromEntry(a, port) == ToIPv4Address(a.members["address"], port)
  {
    GetIntInRange(AF_INET, k);
  }

  /** `OnResponse(s)`: the framing, then the reply's error member or its first address. */
  function OnResponse(s: seq<byte>, port: Port, parse: seq<byte> -> Result<Json>): (r: Result<Address>)
    requires |s| > 0
    ensures s[|s| - 1] != NUL ==> r == Err(MalformedResponse)
    ensures (s[|s| - 1] == NUL && parse(s[..|s| - 1]).Ok? && parse(s[..|s| - 1]).value.JObject? &&
             "error" in parse(s[..|s| - 1]).value.members) ==>
      r == Err(ResolvedError(parse(s[..|s| - 1]).value.members["error"]))
    ensures r.Ok? ==> s[|s| - 1] == NUL && parse(s[..|s| - 1]).Ok?
    ensures s[|s| - 1] == NUL && parse(s[..|s| - 1]).Err? ==> r == Err(ParseError)
    ensures var p := parse(s[..|s| - 1]);
      (s[|s| - 1] == NUL && p.Ok? && !(p.value.JObject? && "error" in p.value.members)) ==>
      r == match FirstAddress(p.value)
           case Err(e) => Err(e)
           case Ok(a) => FromEntry(a, port)
  {
    match Unframe(s)
    case Err(e) => Err(e)
    case Ok(text) =>
      match parse(text)
      case Err(_) => Err(ParseError)
      case Ok(j) =>
        if j.JObject? && "error" in j.members then Err(ResolvedError(j.members["error"]))
        else
          match FirstAddress(j)
          case Err(e) => Err(e)
          case Ok(a) => FromEntry(a, port)
  }

  /**
   * A well-formed reply whose first address entry is an IPv4 one with
   * octets `b` resolves to that IPv4 address with the requested port.
   */
  lemma ReplyWithIPv4(text: seq<byte>, port: Port, parse: seq<byte> -> Result<Json>,
                      b: seq<int>, entry: Json, rest: seq<Json>)
    requires |b| == 4 && forall k :: 0 <= k < 4 ==> 0 <= b[k] < 256
    requires entry == JObject(map["family" := JInt(AF_INET), "address" := JArray(seq(4, k requires 0 <= k < 4 => JInt(b[k])))])
    requires parse(text) == Ok(JObject(map["parameters" := JObject(map["addresses" := JArray([entry] + rest)])]))
    ensures OnResponse(text + [NUL], port, parse) == Ok(IPv4Address(b, port))
  {
    var s := text + [NUL];
    assert s[..|s| - 1] == text;
    var address := entry.members["address"];
    assert EntryReadable(entry);
    var r := ToIPv4Address(address, port);
    assert r.Ok? by {
      assert forall k :: 0 <= k < 4 ==> address.items[k] == JInt(b[k]);
    }
    assert r.value.octets == b by {
      forall k | 0 <= k < 4
        ensures r.value.octets[k] == b[k]
      {
        assert Ok(r.value.octets[k]) == GetUnsigned(address.items[k], 256);
        assert address.items[k] == JInt(b[k]);
      }
    }
  }

  /** What `Receive()` into the 4096-byte buffer returned. */
  datatype Received = Data(bytes: seq<byte>) | Failure(errno: nat)

  /**
   * `OnSocketReady(events)`: an error or hangup event, a failed receive or
   * a 0-byte receive ends the request with an error; otherwise the first
   * 4096 bytes are the response. Either way exactly one callback.
   */
  function OnSocketReady(events: bv32, received: Received, port: Port, parse: seq<byte> -> Result<Json>): (c: Callback)
    ensures events & (SocketEvent.ERROR | SocketEvent.HANGUP) != 0 ==> c == OnResolveHostnameError(ClosedPrematurely)
    ensures events & (SocketEvent.ERROR | SocketEvent.HANGUP) == 0 && received == Data([]) ==>
      c == OnResolveHostnameError(ClosedPrematurely)
    ensures received.Failure? && events & (SocketEvent.ERROR | SocketEvent.HANGUP) == 0 ==>
      c == OnResolveHostnameError(ReceiveFailed(received.errno))
    ensures c.OnResolveHostname? ==>
      (received.Data? && received.bytes != [] &&
       var s := if |received.bytes| > RECEIVE_SIZE then received.bytes[..RECEIVE_SIZE] else received.bytes;
       OnResponse(s, port, parse) == Ok(c.address))
    ensures events & (SocketEvent.ERROR | SocketEvent.HANGUP) == 0 && received.Data? && received.bytes != [] ==>
      var s := if |received.bytes| > RECEIVE_SIZE then received.bytes[..RECEIVE_SIZE] else received.bytes;
      c == match OnResponse(s, port, parse)
           case Ok(a) => OnResolveHostname(a)
           case Err(e) => OnResolveHostnameError(e)
  {
    if events & (SocketEvent.ERROR | SocketEvent.HANGUP) != 0 then OnResolveHostnameError(ClosedPrematurely)
    else
      match received
      case Failure(errno) => OnResolveHostnameError(ReceiveFailed(errno))
      case Data(bytes) =>
        if bytes == [] then OnResolveHostnameError(ClosedPrematurely)
        else
          var s := if |bytes| > RECEIVE_SIZE then bytes[..RECEIVE_SIZE] else bytes;
          match OnResponse(s, port, parse)
          case Err(e) => OnResolveHostnameError(e)
          case Ok(address) => OnResolveHostname(address)
  }

  /**
   * `Start(hostname)`: sends the serialized request (`send` gives what
   * `Send()` returns for it, `errno` the error it leaves) and waits for the
   * reply by scheduling a read; a failed send is an error and leaves the
   * socket event alone.
   */
  method Start(socket: SocketEvent.SocketEvent, hostname: string, dump: Json -> seq<byte>,
               send: seq<byte> -> int, errno: nat) returns (r: Result<()>, request: seq<byte>)
    requires NUL !in dump(Request(hostname))
    modifies socket
    ensures request == Serialize(hostname, dump)
    ensures send(request) < 0 ==> r == Err(SendFailed(errno)) && socket.scheduledFlags == old(socket.scheduledFlags)
    ensures send(request) >= 0 ==> r == Ok(()) && socket.scheduledFlags == SocketEvent.WithRead(old(socket.scheduledFlags))
    ensures send(request) >= 0 ==> socket.IsReadPending()
  {
    request := Serialize(hostname, dump);
    var sent := send(request);
    if sent < 0 {
      return Err(SendFailed(errno)), request;
    }
    socket.ScheduleRead();
    return Ok(()), request;
  }
}
