/** Octets and the handful of ASCII codes the wire formats below use. */
module Bytes {
  /** One octet, as `std::byte`, `char` or `uint8_t` hold it. */
  type byte = b: int | 0 <= b < 256

  const NUL: byte := 0
  const NEWLINE: byte := 10
  const COMMA: byte := 44
  const COLON: byte := 58

  /** The bytes of an ASCII text, one per character. */
  function FromText(s: string): (b: seq<byte>)
    requires forall i :: 0 <= i < |s| ==> s[i] as int < 256
    ensures |b| == |s|
    ensures forall i :: 0 <= i < |s| ==> b[i] == s[i] as int
  {
    seq(|s|, i requires 0 <= i < |s| => s[i] as int as byte)
  }

  /** The characters of a byte string, one per byte (Latin-1 reading). */
  function ToText(b: seq<byte>): (s: string)
    ensures |s| == |b|
    ensures forall i :: 0 <= i < |b| ==> s[i] as int == b[i]
  {
    seq(|b|, i requires 0 <= i < |b| => b[i] as char)
  }
}

/**
 * Unsigned decimal numbers: the text `sprintf("%u")` and the netstring
 * header generator produce, and the parse `std::from_chars(..., 10)`
 * performs on a `std::size_t`.
 */
module Decimal {
  import opened Bytes

  /** The largest `std::size_t` on the 64-bit targets the code is built for. */
  const SIZE_MAX: nat := 0xFFFF_FFFF_FFFF_FFFF

  predicate IsDigit(b: byte) {
    '0' as int <= b <= '9' as int
  }

  predicate AllDigits(s: seq<byte>) {
    forall i :: 0 <= i < |s| ==> IsDigit(s[i])
  }

  /** The decimal rendering of `n`: most significant digit first, no leading zero. */
  function Digits(n: nat): (s: seq<byte>)
    ensures |s| > 0 && AllDigits(s)
    ensures s[0] == '0' as int ==> n == 0
    decreases n
  {
    if n < 10 then [n + '0' as int] else Digits(n / 10) + [n % 10 + '0' as int]
  }

  /** The same rendering as a character string. */
  function Text(n: nat): (t: string)
    ensures |t| > 0
    ensures forall i :: 0 <= i < |t| ==> '0' <= t[i] <= '9'
  {
    ToText(Digits(n))
  }

  /** The number an all-digit string denotes (leading zeros allowed). */
  function Value(s: seq<byte>): nat
    requires AllDigits(s)
  {
    if s == [] then 0 else Value(s[..|s| - 1]) * 10 + (s[|s| - 1] - '0' as int)
  }

  lemma {:induction false} ValueOfDigits(n: nat)
    ensures Value(Digits(n)) == n
    decreases n
  {
    if n >= 10 {
      var d := Digits(n);
      assert d[..|d| - 1] == Digits(n / 10);
      ValueOfDigits(n / 10);
    }
  }

  /** Different numbers render differently. */
  lemma DigitsInjective(m: nat, n: nat)
    requires Digits(m) == Digits(n)
    ensures m == n
  {
    ValueOfDigits(m);
    ValueOfDigits(n);
  }

  /** The length of the longest all-digit prefix of `s`. */
  function LeadingDigits(s: seq<byte>): (k: nat)
    ensures k <= |s|
    ensures AllDigits(s[..k])
    ensures k < |s| ==> !IsDigit(s[k])
  {
    if s == [] || !IsDigit(s[0]) then 0
    else
      var k := 1 + LeadingDigits(s[1..]);
      assert s[..k] == [s[0]] + s[1..][..k - 1];
      k
  }

  /** The outcome of `std::from_chars` with base 10 on a `std::size_t`. */
  datatype Parsed =
    | NoDigits                       // `ptr == first`, `errc::invalid_argument`
    | OutOfRange(end: nat)           // `errc::result_out_of_range`
    | Number(value: nat, end: nat)   // success; `end` bytes were consumed

  function FromChars(s: seq<byte>): (r: Parsed)
    ensures r.NoDigits? <==> (s == [] || !IsDigit(s[0]))
    ensures r.Number? ==> r.value <= SIZE_MAX && 0 < r.end <= |s|
    ensures r.Number? ==> AllDigits(s[..r.end]) && r.value == Value(s[..r.end])
    ensures r.Number? ==> r.end == |s| || !IsDigit(s[r.end])
    ensures r.OutOfRange? ==> 0 < r.end <= |s| && AllDigits(s[..r.end]) && Value(s[..r.end]) > SIZE_MAX
    ensures r.OutOfRange? ==> r.end == |s| || !IsDigit(s[r.end])
  {
    var k := LeadingDigits(s);
    if k == 0 then NoDigits
    else if Value(s[..k]) > SIZE_MAX then OutOfRange(k)
    else Number(Value(s[..k]), k)
  }

  /** Parsing the rendering of a number, followed by a non-digit or nothing, yields that number. */
  lemma {:induction false} FromCharsOfDigits(n: nat, rest: seq<byte>)
    requires n <= SIZE_MAX
    requires rest == [] || !IsDigit(rest[0])
    ensures FromChars(Digits(n) + rest) == Number(n, |Digits(n)|)
  {
    var s := Digits(n) + rest;
    LeadingDigitsOfPrefix(Digits(n), rest);
    assert s[..|Digits(n)|] == Digits(n);
    ValueOfDigits(n);
  }

  lemma {:induction false} LeadingDigitsOfPrefix(d: seq<byte>, rest: seq<byte>)
    requires AllDigits(d)
    requires rest == [] || !IsDigit(rest[0])
    ensures LeadingDigits(d + rest) == |d|
    decreases |d|
  {
    if d == [] {
      assert d + rest == rest;
    } else {
      assert (d + rest)[1..] == d[1..] + rest;
      LeadingDigitsOfPrefix(d[1..], rest);
    }
  }
}

/**
 * The two libc primitives the identity builders use to append to a
 * caller-owned character buffer through a moving cursor.
 */
module CharBuffer {
  import opened Optional

  predicate NoNul(s: string) {
    forall i :: 0 <= i < |s| ==> s[i] != '\0'
  }

  /** `mempcpy(p, s, |s|)`: copies `s` to position `p`; returns the position after it. */
  method Mempcpy(buf: array<char>, p: nat, s: string) returns (q: nat)
    requires p + |s| <= buf.Length
    modifies buf
    ensures q == p + |s| && buf[p..q] == s
    ensures forall i :: 0 <= i < buf.Length && !(p <= i < q) ==> buf[i] == old(buf[i])
  {
    var k := 0;
    while k < |s|
      invariant 0 <= k <= |s|
      invariant buf[p..p + k] == s[..k]
      invariant forall i :: 0 <= i < buf.Length && !(p <= i < p + k) ==> buf[i] == old(buf[i])
    {
      buf[p + k] := s[k];
      k := k + 1;
    }
    q := p + |s|;
  }

  /**
   * `stpcpy(p, s)`: copies the C string `s` with its terminator to position
   * `p`; returns the position of the terminator.
   */
  method Stpcpy(buf: array<char>, p: nat, s: string) returns (q: nat)
    requires NoNul(s)
    requires p + |s| < buf.Length
    modifies buf
    ensures q == p + |s| && buf[p..q] == s && buf[q] == '\0'
    ensures forall i :: 0 <= i < buf.Length && !(p <= i <= q) ==> buf[i] == old(buf[i])
  {
    q := Mempcpy(buf, p, s);
    buf[q] := '\0';
  }

  /** `mempcpy` at the end of a region that starts at `start`: the region grows by `s`. */
  method Append(buf: array<char>, start: nat, p: nat, s: string) returns (q: nat)
    requires start <= p && p + |s| <= buf.Length
    modifies buf
    ensures q == p + |s| && buf[start..q] == old(buf[start..p]) + s
    ensures forall i :: 0 <= i < buf.Length && !(p <= i < q) ==> buf[i] == old(buf[i])
  {
    ghost var before := buf[start..p];
    q := Mempcpy(buf, p, s);
    assert buf[start..q] == buf[start..p] + buf[p..q];
  }

  /** `stpcpy` at the end of a region that starts at `start`: the region grows by `s`, NUL-terminated. */
  method AppendCString(buf: array<char>, start: nat, p: nat, s: string) returns (q: nat)
    requires NoNul(s)
    requires start <= p && p + |s| < buf.Length
    modifies buf
    ensures q == p + |s| && buf[start..q] == old(buf[start..p]) + s && buf[q] == '\0'
    ensures forall i :: 0 <= i < buf.Length && !(p <= i <= q) ==> buf[i] == old(buf[i])
  {
    q := Stpcpy(buf, p, s);
    assert buf[start..q] == buf[start..p] + buf[p..q];
  }

  /** Regrouping the pieces of a region that grew three times. */
  lemma Regroup(a: string, b: string, c: string, d: string)
    ensures a + b + c + d == a + (b + c + d)
  {
  }

  /** A fixed token, present iff its switch is on. */
  function Flag(on: bool, token: string): string {
    if on then token else ""
  }

  /** A prefix followed by a name, present iff the name is set. */
  function Named(prefix: string, name: Option<string>): string {
    match name
    case Some(n) => prefix + n
    case None => ""
  }

  /** `if (on) p = mempcpy(p, token, size)`. */
  method AppendFlag(buf: array<char>, start: nat, p: nat, on: bool, token: string) returns (q: nat)
    requires start <= p && p + |Flag(on, token)| <= buf.Length
    modifies buf
    ensures q == p + |Flag(on, token)| && buf[start..q] == old(buf[start..p]) + Flag(on, token)
    ensures forall i :: 0 <= i < buf.Length && !(p <= i < q) ==> buf[i] == old(buf[i])
  {
    q := p;
    if on {
      q := Append(buf, start, p, token);
    }
  }

  /** `if (name != nullptr) { p = mempcpy(p, prefix, size); p = stpcpy(p, name); }` */
  method AppendNamed(buf: array<char>, start: nat, p: nat, prefix: string, name: Option<string>) returns (q: nat)
    requires name.Some? ==> NoNul(name.value)
    requires start <= p && p + |Named(prefix, name)| < buf.Length
    modifies buf
    ensures q == p + |Named(prefix, name)| && buf[start..q] == old(buf[start..p]) + Named(prefix, name)
    ensures forall i :: 0 <= i < buf.Length && !(p <= i <= q) ==> buf[i] == old(buf[i])
  {
    q := p;
    match name {
      case Some(n) =>
        q := Append(buf, start, p, prefix);
        q := AppendCString(buf, start, q, n);
        assert old(buf[start..p]) + prefix + n == old(buf[start..p]) + (prefix + n);
      case None =>
    }
  }
}

/** An optional value: a C string pointer that may be null, a name that may be unset. */
module Optional {
  datatype Option<T> = None | Some(value: T)
}
