/**
 * `BufferedReader`: a growable input buffer in front of a `Reader`, with
 * reads of an exact amount and reads of `\n`-terminated lines.
 *
 * The `Reader` is a scripted source: a queue of chunks, each `Read()`
 * returning (a prefix of) the next one, an empty chunk meaning end of file.
 * A ghost record of everything the reader produced and everything handed to
 * the caller lets the invariant state that no byte is lost or duplicated.
 */
module BufferedReader {
  import opened Bytes
  import opened Optional

  lemma PrefixOfPrefix(a: seq<byte>, b: seq<byte>, c: seq<byte>)
    requires |a| <= |b| <= |c| && b[..|a|] == a && c[..|b|] == b
    ensures c[..|a|] == a
  {
    assert c[..|a|] == c[..|b|][..|a|];
  }

  /** Sum of the chunk lengths: what the reader can still produce. */
  function Total(chunks: seq<seq<byte>>): nat {
    if chunks == [] then 0 else |chunks[0]| + Total(chunks[1..])
  }

  function Min(a: nat, b: nat): nat {
    if a <= b then a else b
  }

  /** The input source; `Read()` is the only thing the buffered reader asks of it. */
  class Reader {
    var chunks: seq<seq<byte>>
    ghost var produced: seq<byte>
    ghost var ended: bool          // some `Read()` has returned no bytes

    constructor (chunks: seq<seq<byte>>)
      ensures this.chunks == chunks && produced == [] && !ended
    {
      this.chunks := chunks;
      produced := [];
      ended := false;
    }

    /** `Read(p, size)`: at most `size` bytes of the next chunk; none at end of file. */
    method Read(size: nat) returns (data: seq<byte>)
      requires size > 0
      modifies this
      ensures |data| <= size && produced == old(produced) + data
      ensures old(chunks) == [] ==> data == [] && chunks == []
      ensures old(chunks) != [] ==> data == old(chunks[0])[..Min(size, |old(chunks[0])|)]
      ensures data != [] ==> Total(chunks) + |data| == Total(old(chunks))
      ensures ended == (old(ended) || data == [])
    {
      if chunks == [] {
        ended := true;
        return [];
      }
      var c := chunks[0];
      if |c| <= size {
        data := c;
        chunks := chunks[1..];
      } else {
        data := c[..size];
        chunks := [c[size..]] + chunks[1..];
        assert [c[size..]] + chunks[1..] == [c[size..]] + old(chunks)[1..];
        assert Total([c[size..]] + old(chunks)[1..]) == |c| - size + Total(old(chunks)[1..]);
      }
      produced := produced + data;
      ended := ended || data == [];
    }
  }

  /** `ExtractLine(buffer)`: the position of the first newline, if the buffer holds one. */
  function NewlineAt(data: seq<byte>): (k: int)
    ensures -1 <= k < |data|
    ensures k >= 0 ==> data[k] == NEWLINE && NEWLINE !in data[..k]
    ensures k == -1 <==> NEWLINE !in data
  {
    if data == [] then -1
    else if data[0] == NEWLINE then 0
    else
      var k := NewlineAt(data[1..]);
      assert data[1..][..if k >= 0 then k else 0] == data[1..if k >= 0 then k + 1 else 1];
      assert k >= 0 ==> data[..k + 1] == [data[0]] + data[1..][..k];
      if k < 0 then -1 else k + 1
  }

  class BufferedReader {
    const reader: Reader
    const maxSize: nat             // `MAX_SIZE`
    var data: seq<byte>            // the buffered bytes not yet consumed
    var capacity: nat              // `buffer.GetCapacity()`
    var eof: bool
    var lineNumber: nat

    ghost var delivered: seq<byte> // what was handed to the caller, in order

    ghost predicate Valid()
      reads this, reader
    {
      0 < capacity && |data| <= capacity && reader.produced == delivered + data &&
      eof == reader.ended
    }

    constructor (reader: Reader, capacity: nat, maxSize: nat)
      requires capacity > 0 && reader.produced == [] && !reader.ended
      ensures Valid() && this.reader == reader && this.maxSize == maxSize
      ensures data == [] && this.capacity == capacity && !eof && lineNumber == 0 && delivered == []
    {
      this.reader := reader;
      this.maxSize := maxSize;
      data := [];
      this.capacity := capacity;
      eof := false;
      lineNumber := 0;
      delivered := [];
    }

    /**
     * `Fill(need_more)`: one read into the free space, the buffer doubling
     * first when it is full and below `MAX_SIZE`. Returns true iff bytes were
     * added, or nothing could be read and `need_more` is false.
     */
    method Fill(needMore: bool) returns (ok: bool)
      requires Valid()
      modifies this, reader
      ensures Valid() && delivered == old(delivered) && lineNumber == old(lineNumber)
      ensures old(eof) ==> ok == !needMore && unchanged(this) && unchanged(reader)
      ensures !old(eof) && |old(data)| == old(capacity) && old(capacity) >= maxSize ==>
        ok == !needMore && unchanged(this) && unchanged(reader)
      ensures capacity == old(capacity) || (|old(data)| == old(capacity) < maxSize && capacity == 2 * old(capacity))
      ensures data == old(data) ==> ok == !needMore
      ensures data != old(data) ==> ok && !eof && |data| > |old(data)| && data[..|old(data)|] == old(data)
      ensures eof ==> data == old(data)
      ensures data != old(data) ==> Total(reader.chunks) < Total(old(reader.chunks))
      ensures ok && needMore ==> data != old(data)
      ensures !ok ==> eof || |data| == capacity >= maxSize
      ensures eof == (old(eof) || (!(|old(data)| == old(capacity) && old(capacity) >= maxSize) &&
                                   (old(reader.chunks) == [] || old(reader.chunks)[0] == [])))
      ensures !old(eof) && |old(data)| == old(capacity) < maxSize ==> capacity == 2 * old(capacity)
    {
      if eof {
        return !needMore;
      }
      if |data| == capacity {
        if capacity >= maxSize {
          return !needMore;
        }
        capacity := capacity * 2;
      }
      var bytes := reader.Read(capacity - |data|);
      if bytes == [] {
        eof := true;
        return !needMore;
      }
      data := data + bytes;
      assert data[..|old(data)|] == old(data);
      return true;
    }

    /** `ReadFromBuffer(dest)` into `dest[from..]`: copies and consumes as much as both allow. */
    method ReadFromBuffer(dest: array<byte>, from: nat) returns (n: nat)
      requires Valid() && from <= dest.Length
      modifies this, dest
      ensures Valid() && unchanged(reader)
      ensures n == Min(|old(data)|, dest.Length - from)
      ensures dest[from..from + n] == old(data)[..n] && data == old(data)[n..]
      ensures delivered == old(delivered) + old(data)[..n]
      ensures forall i :: 0 <= i < dest.Length && !(from <= i < from + n) ==> dest[i] == old(dest[i])
      ensures capacity == old(capacity) && eof == old(eof) && lineNumber == old(lineNumber)
    {
      n := Min(|data|, dest.Length - from);
      forall i | 0 <= i < n {
        dest[from + i] := data[i];
      }
      delivered := delivered + data[..n];
      assert delivered + data[n..] == old(delivered) + old(data);
      data := data[n..];
    }

    /**
     * `ReadFull(dest)`: fills all of `dest` with the next bytes of the
     * stream; false where the source throws "Premature end of file".
     */
    method ReadFull(dest: array<byte>) returns (ok: bool)
      requires Valid()
      modifies this, reader, dest
      ensures Valid() && lineNumber == old(lineNumber)
      ensures ok ==> delivered == old(delivered) + dest[..]
      ensures !ok ==> data == [] && eof
    {
      var from: nat := 0;
      while true
        invariant Valid() && from <= dest.Length && lineNumber == old(lineNumber)
        invariant delivered == old(delivered) + dest[..from]
        decreases Total(reader.chunks) + dest.Length - from
      {
        var n := ReadFromBuffer(dest, from);
        assert dest[..from + n] == dest[..from] + dest[from..from + n];
        from := from + n;
        if from == dest.Length {
          assert dest[..from] == dest[..];
          return true;
        }
        ok := Fill(true);
        if !ok {
          return false;
        }
      }
    }

    /**
     * `ReadFull(size)`: fills until at least `size` bytes are buffered,
     * consuming none; false where the source throws.
     */
    method ReadFullSize(size: nat) returns (ok: bool)
      requires Valid()
      modifies this, reader
      ensures Valid() && delivered == old(delivered) && lineNumber == old(lineNumber)
      ensures ok <==> |data| >= size
      ensures |old(data)| <= |data| && data[..|old(data)|] == old(data)
      ensures !ok ==> eof || |data| == capacity >= maxSize
    {
      while |data| < size
        invariant Valid() && delivered == old(delivered) && lineNumber == old(lineNumber)
        invariant |old(data)| <= |data| && data[..|old(data)|] == old(data)
        decreases Total(reader.chunks)
      {
        ghost var before := data;
        ok := Fill(true);
        if !ok {
          return false;
        }
        PrefixOfPrefix(old(data), before, data);
      }
      return true;
    }

    /**
     * `ReadLine()`: the next line without its newline, or at end of file the
     * unterminated rest of the stream; `None` when nothing more can be read.
     * Each line returned counts in `line_number`.
     */
    method ReadLine() returns (line: Option<seq<byte>>)
      requires Valid()
      modifies this, reader
      ensures Valid()
      ensures line.Some? ==> lineNumber == old(lineNumber) + 1 && NEWLINE !in line.value
      ensures line.Some? ==>
        delivered == old(delivered) + line.value + [NEWLINE] ||
        (eof && data == [] && line.value != [] && delivered == old(delivered) + line.value)
      ensures line.None? ==>
        lineNumber == old(lineNumber) && delivered == old(delivered) &&
        ((eof && data == []) || (!eof && NEWLINE !in data && |data| == capacity >= maxSize))
    {
      var k := FillUntilLine();
      if k >= 0 {
        line := Some(data[..k]);
        Consume(k);
        lineNumber := lineNumber + 1;
        return;
      }
      if !eof || data == [] {
        return None;
      }
      if |data| == capacity {
        // room for the terminating null byte
        capacity := capacity + 1;
      }
      line := Some(data);
      delivered := delivered + data;
      data := [];
      lineNumber := lineNumber + 1;
    }

    /**
     * The `do … while (Fill(true))` loop of `ReadLine()`: fills until the
     * buffer holds a newline (its position) or no more can be read (-1).
     */
    method FillUntilLine() returns (k: int)
      requires Valid()
      modifies this, reader
      ensures Valid() && delivered == old(delivered) && lineNumber == old(lineNumber)
      ensures -1 <= k < |data|
      ensures k >= 0 ==> data[k] == NEWLINE && NEWLINE !in data[..k]
      ensures k < 0 ==> NEWLINE !in data && (eof || |data| == capacity >= maxSize)
    {
      while true
        invariant Valid() && delivered == old(delivered) && lineNumber == old(lineNumber)
        decreases Total(reader.chunks)
      {
        k := NewlineAt(data);
        if k >= 0 {
          return;
        }
        var more := Fill(true);
        if !more {
          return;
        }
      }
    }

    /** Hands `data[..k]` and the newline at `k` over to the caller. */
    method Consume(k: nat)
      requires Valid() && k < |data| && data[k] == NEWLINE
      modifies this
      ensures Valid() && data == old(data)[k + 1..]
      ensures delivered == old(delivered) + old(data)[..k] + [NEWLINE]
      ensures capacity == old(capacity) && eof == old(eof) && lineNumber == old(lineNumber)
    {
      assert data[..k + 1] == data[..k] + [NEWLINE];
      assert data == data[..k + 1] + data[k + 1..];
      delivered := delivered + data[..k + 1];
      data := data[k + 1..];
    }
  }
}
