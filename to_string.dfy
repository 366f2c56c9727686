/**
 * `ToString(buffer, buffer_size, address)`: the numeric text of a socket
 * address written into a caller's buffer as a C string; local sockets
 * are their path with embedded null bytes shown as '@', IP addresses
 * with a port are "host:port" or, for IPv6, "[host]:port" (section 6 of
 * RFC 5952). The buffer's length is `buffer_size`.
 */
module ToString {
  import opened Bytes
  import opened Optional

  const AT: byte := '@' as int
  const OPEN_BRACKET: byte := '[' as int
  const CLOSE_BRACKET: byte := ']' as int
  /** `sizeof(serv)` in `ToString()`. */
  const SERV_SIZE: nat := 16

  datatype SocketAddress =
    | Null
    | Local(path: seq<byte>)                          // `sun_path`, `GetSize() - prefix` bytes
    | Inet(address: seq<byte>, port: nat)
    | Inet6(address: seq<byte>, port: nat, scope: nat)
    | Other(family: nat, data: seq<byte>)

  /** `::ffff:a.b.c.d` */
  predicate IsV4Mapped(a: SocketAddress) {
    a.Inet6? && |a.address| == 16 && a.address[..12] == [0, 0, 0, 0, 0, 0, 0, 0, 0, 0, 0xff, 0xff]
  }

  /** The address `getnameinfo()` is asked about: IPv4-mapped IPv6 addresses are unmapped. */
  function Unmapped(a: SocketAddress): (u: SocketAddress)
    ensures IsV4Mapped(a) ==> u == Inet(a.address[12..], a.port)
    ensures !IsV4Mapped(a) ==> u == a
    ensures !IsV4Mapped(u)
  {
    if IsV4Mapped(a) then Inet(a.address[12..], a.port) else a
  }

  /**
   * What `getnameinfo(NI_NUMERICHOST | NI_NUMERICSERV)` answers for an
   * address, given enough room: the host and service texts, without their
   * terminators. It is a parameter of the model.
   */
  datatype NameInfo = Failed | Resolved(host: seq<byte>, serv: seq<byte>)

  /** `getnameinfo()` produces C strings, which hold no null byte. */
  ghost predicate CStrings(getnameinfo: SocketAddress -> NameInfo) {
    forall a :: getnameinfo(a).Resolved? ==> NUL !in getnameinfo(a).host && NUL !in getnameinfo(a).serv
  }

  /** The text `std::replace(…, '\0', '@')` leaves. */
  function ReplaceNul(s: seq<byte>): (r: seq<byte>)
    ensures |r| == |s| && NUL !in r
  {
    seq(|s|, i requires 0 <= i < |s| => if s[i] == NUL then AT else s[i])
  }

  /** The path bytes `LocalToString()` keeps: at most `size - 1`, minus a non-abstract terminator. */
  function LocalPath(path: seq<byte>, size: nat): seq<byte>
    requires size > 0
  {
    var n := if |path| >= size then size - 1 else |path|;
    if n > 0 && path[0] != NUL && path[n - 1] == NUL then path[..n - 1] else path[..n]
  }

  function LocalText(path: seq<byte>, size: nat): seq<byte>
    requires size > 0
  {
    ReplaceNul(LocalPath(path, size))
  }

  /** "host:serv", the host in brackets for IPv6. */
  function WithPort(host: seq<byte>, serv: seq<byte>, v6: bool): seq<byte> {
    (if v6 then [OPEN_BRACKET] + host + [CLOSE_BRACKET] else host) + [COLON] + serv
  }

  /** What `ToString()` leaves in a buffer of `size` bytes, or `None` where it returns false. */
  function Rendered(address: SocketAddress, size: nat, getnameinfo: SocketAddress -> NameInfo): Option<seq<byte>>
    requires size > 0
  {
    match address
    case Null => None
    case Local(path) => Some(LocalText(path, size))
    case _ =>
      var a := Unmapped(address);
      match getnameinfo(a)
      case Failed => None
      case Resolved(host, serv) =>
        if |host| >= size || |serv| >= SERV_SIZE then None         // EAI_OVERFLOW
        else if serv == [] then Some(host)
        else if a.Inet6? && |host| + 4 >= size then None
        else if (if a.Inet6? then |host| + 2 else |host|) + 1 + |serv| >= size then None
        else Some(WithPort(host, serv, a.Inet6?))
  }

  /** What `HostToString()` leaves in the buffer, or `None` where it returns false. */
  function HostRendered(address: SocketAddress, size: nat, getnameinfo: SocketAddress -> NameInfo): Option<seq<byte>>
    requires size > 0
  {
    match address
    case Null => None
    case Local(path) => Some(LocalText(path, size))
    case _ =>
      match getnameinfo(Unmapped(address))
      case Failed => None
      case Resolved(host, _) => if |host| >= size then None else Some(host)
  }

  /**
   * The local text fits the buffer with its terminator and holds no null
   * byte; an abstract address starts with '@'; a non-abstract path ending
   * in a null byte loses that byte instead of showing it as '@'.
   */
  lemma LocalTextShape(path: seq<byte>, size: nat)
    requires size > 0
    ensures var t := LocalText(path, size); |t| < size && NUL !in t
    ensures |path| > 0 && size > 1 && path[0] == NUL ==> LocalText(path, size)[0] == AT
    ensures 0 < |path| < size && path[0] != NUL && path[|path| - 1] == NUL ==>
      LocalText(path, size) == ReplaceNul(path[..|path| - 1])
    ensures |path| < size && (path == [] || path[0] == NUL || path[|path| - 1] != NUL) ==>
      LocalText(path, size) == ReplaceNul(path)
  {
    assert path[..|path|] == path;
  }

  /** Whatever `ToString()` succeeds with fits the buffer with its terminator. */
  lemma RenderedFits(address: SocketAddress, size: nat, getnameinfo: SocketAddress -> NameInfo)
    requires size > 0 && CStrings(getnameinfo)
    ensures var r := Rendered(address, size, getnameinfo); r.Some? ==> |r.value| < size && NUL !in r.value
  {
    if address.Local? {
      LocalTextShape(address.path, size);
    } else if !address.Null? {
      var a := Unmapped(address);
      var info := getnameinfo(a);
      if info.Resolved? && info.serv != [] {
        assert WithPort(info.host, info.serv, a.Inet6?)
          == (if a.Inet6? then [OPEN_BRACKET] + info.host + [CLOSE_BRACKET] else info.host) + [COLON] + info.serv;
      }
    }
  }

  /**
   * With a service, an IP address is rendered "[host]:port" when it is
   * IPv6 and "host:port" otherwise, v4-mapped addresses as IPv4, exactly
   * when that fits; without one, it is the host alone.
   */
  lemma RenderedWithPort(address: SocketAddress, size: nat, getnameinfo: SocketAddress -> NameInfo)
    requires size > 0 && !address.Null? && !address.Local?
    requires getnameinfo(Unmapped(address)).Resolved?
    requires |getnameinfo(Unmapped(address)).host| < size && |getnameinfo(Unmapped(address)).serv| < SERV_SIZE
    ensures var info := getnameinfo(Unmapped(address));
      var v6 := address.Inet6? && !IsV4Mapped(address);
      Rendered(address, size, getnameinfo) ==
        if info.serv == [] then Some(info.host)
        else if |WithPort(info.host, info.serv, v6)| < size then Some(WithPort(info.host, info.serv, v6))
        else None
  {
    var info := getnameinfo(Unmapped(address));
    var v6 := address.Inet6? && !IsV4Mapped(address);
    assert Unmapped(address).Inet6? == v6;
    assert |WithPort(info.host, info.serv, v6)| == (if v6 then |info.host| + 2 else |info.host|) + 1 + |info.serv|;
  }

  /** An IPv4-mapped address renders exactly as the IPv4 address it maps. */
  lemma MappedRendersAsIPv4(address: SocketAddress, size: nat, getnameinfo: SocketAddress -> NameInfo)
    requires size > 0 && IsV4Mapped(address)
    ensures Rendered(address, size, getnameinfo) == Rendered(Inet(address.address[12..], address.port), size, getnameinfo)
    ensures HostRendered(address, size, getnameinfo) == HostRendered(Inet(address.address[12..], address.port), size, getnameinfo)
  {
  }

  /** Writes `s` at `buffer[at..]`, leaving every other byte alone. */
  method Write(buffer: array<byte>, at: nat, s: seq<byte>)
    requires at + |s| <= buffer.Length
    modifies buffer
    ensures buffer[at..at + |s|] == s
    ensures forall i :: 0 <= i < buffer.Length && !(at <= i < at + |s|) ==> buffer[i] == old(buffer[i])
  {
    forall i | 0 <= i < |s| {
      buffer[at + i] := s[i];
    }
  }

  /** `LocalToString()`: always succeeds, with the local text and its terminator. */
  method LocalToString(buffer: array<byte>, path: seq<byte>) returns (ok: bool)
    requires buffer.Length > 0
    modifies buffer
    ensures ok
    ensures var t := LocalText(path, buffer.Length); buffer[..|t|] == t && buffer[|t|] == NUL
  {
    var length := |path|;
    if length >= buffer.Length {
      length := buffer.Length - 1;
    }
    Write(buffer, 0, path[..length]);
    var end := length;
    if end > 0 && buffer[0] != NUL && buffer[end - 1] == NUL {
      end := end - 1;
    }
    assert buffer[..end] == LocalPath(path, buffer.Length);
    ReplaceNulInPlace(buffer, end);
    buffer[end] := NUL;
    return true;
  }

  /** `std::replace(buffer, end, '\0', '@')` */
  method ReplaceNulInPlace(buffer: array<byte>, end: nat)
    requires end <= buffer.Length
    modifies buffer
    ensures buffer[..end] == ReplaceNul(old(buffer[..end]))
  {
    ghost var kept := buffer[..end];
    var i := 0;
    while i < end
      invariant 0 <= i <= end
      invariant forall k :: 0 <= k < i ==> buffer[k] == ReplaceNul(kept)[k]
      invariant forall k :: i <= k < end ==> buffer[k] == kept[k]
    {
      if buffer[i] == NUL {
        buffer[i] := AT;
      }
      i := i + 1;
    }
  }

  /**
   * The `getnameinfo()` call: the host and its terminator in the buffer,
   * the service returned, or failure when either does not fit.
   */
  method GetNameInfo(buffer: array<byte>, a: SocketAddress, getnameinfo: SocketAddress -> NameInfo)
    returns (ok: bool, length: nat, serv: seq<byte>)
    requires buffer.Length > 0
    modifies buffer
    ensures ok <==> getnameinfo(a).Resolved? && |getnameinfo(a).host| < buffer.Length && |getnameinfo(a).serv| < SERV_SIZE
    ensures ok ==> length == |getnameinfo(a).host| && serv == getnameinfo(a).serv
    ensures ok ==> buffer[..length] == getnameinfo(a).host && buffer[length] == NUL
  {
    var info := getnameinfo(a);
    if info.Failed? || |info.host| >= buffer.Length || |info.serv| >= SERV_SIZE {
      return false, 0, [];
    }
    Write(buffer, 0, info.host + [NUL]);
    assert buffer[..|info.host| + 1] == info.host + [NUL];
    assert buffer[..|info.host|] == buffer[..|info.host| + 1][..|info.host|];
    return true, |info.host|, info.serv;
  }

  /** The memmove and the two stores that put `buffer[..length]` in brackets. */
  method Bracket(buffer: array<byte>, length: nat)
    requires length + 2 < buffer.Length
    modifies buffer
    ensures buffer[..length + 2] == [OPEN_BRACKET] + old(buffer[..length]) + [CLOSE_BRACKET]
    ensures buffer[length + 2] == NUL
  {
    forall i | 0 <= i < length {
      buffer[i + 1] := buffer[i];
    }
    buffer[0] := OPEN_BRACKET;
    buffer[length + 1] := CLOSE_BRACKET;
    buffer[length + 2] := NUL;
    assert buffer[1..length + 1] == old(buffer[..length]);
    assert buffer[..length + 2] == [buffer[0]] + buffer[1..length + 1] + [buffer[length + 1]];
  }

  /** `strcat(buffer, ":")` and `strcat(buffer, serv)` on a string of `length` bytes. */
  method AppendServ(buffer: array<byte>, length: nat, serv: seq<byte>)
    requires length + 1 + |serv| < buffer.Length
    modifies buffer
    ensures buffer[..length + 1 + |serv|] == old(buffer[..length]) + [COLON] + serv
    ensures buffer[length + 1 + |serv|] == NUL
  {
    Write(buffer, length, [COLON] + serv + [NUL]);
    assert buffer[..length + 1 + |serv|] == buffer[..length] + buffer[length..length + 1 + |serv| + 1][..1 + |serv|];
  }

  /** `ToString(buffer, buffer_size, address)`: true exactly where `Rendered` is, with that text. */
  method ToString(buffer: array<byte>, address: SocketAddress, getnameinfo: SocketAddress -> NameInfo)
    returns (ok: bool)
    requires buffer.Length > 0
    modifies buffer
    ensures ok <==> Rendered(address, buffer.Length, getnameinfo).Some?
    ensures ok ==> var t := Rendered(address, buffer.Length, getnameinfo).value;
      buffer[..|t|] == t && buffer[|t|] == NUL
  {
    if address.Null? {
      return false;
    }
    if address.Local? {
      ok := LocalToString(buffer, address.path);
      return;
    }
    var a := Unmapped(address);
    var length, serv;
    ok, length, serv := GetNameInfo(buffer, a, getnameinfo);
    if !ok {
      return;
    }
    ghost var host := buffer[..length];
    if serv != [] {
      if a.Inet6? {
        if length + 4 >= buffer.Length {
          return false;
        }
        Bracket(buffer, length);
        length := length + 2;
      }
      if length + 1 + |serv| >= buffer.Length {
        return false;
      }
      ghost var h := buffer[..length];
      AppendServ(buffer, length, serv);
      assert buffer[..length + 1 + |serv|] == WithPort(host, serv, a.Inet6?);
    }
  }

  /** The overload with a fallback: the buffer's text on success, the fallback otherwise. */
  method ToStringOr(buffer: array<byte>, address: SocketAddress, getnameinfo: SocketAddress -> NameInfo,
                    fallback: seq<byte>)
    returns (s: seq<byte>)
    requires buffer.Length > 0
    modifies buffer
    ensures s == match Rendered(address, buffer.Length, getnameinfo)
      case Some(t) => t
      case None => fallback
  {
    var ok := ToString(buffer, address, getnameinfo);
    if ok {
      s := buffer[..|Rendered(address, buffer.Length, getnameinfo).value|];
    } else {
      s := fallback;
    }
  }

  /** `HostToString(buffer, buffer_size, address)`: the address without its port. */
  method HostToString(buffer: array<byte>, address: SocketAddress, getnameinfo: SocketAddress -> NameInfo)
    returns (ok: bool)
    requires buffer.Length > 0
    modifies buffer
    ensures ok <==> HostRendered(address, buffer.Length, getnameinfo).Some?
    ensures ok ==> var t := HostRendered(address, buffer.Length, getnameinfo).value;
      buffer[..|t|] == t && buffer[|t|] == NUL
  {
    if address.Null? {
      return false;
    }
    if address.Local? {
      ok := LocalToString(buffer, address.path);
      return;
    }
    var info := getnameinfo(Unmapped(address));
    if info.Failed? || |info.host| >= buffer.Length {
      return false;
    }
    Write(buffer, 0, info.host + [NUL]);
    assert buffer[..|info.host|] == buffer[..|info.host| + 1][..|info.host|];
    return true;
  }
}
