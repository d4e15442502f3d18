/** An open file: its content, and a cursor that reads and seeks move. */
module Files {
  import opened Bytes

  class OsFile {
    const data: bytes
    var pos: nat

    constructor (data: bytes)
      ensures this.data == data && pos == 0
    {
      this.data, pos := data, 0;
    }

    /** Seeking before the start of the file is an error. */
    method Seek(to: int) returns (ok: bool)
      modifies this`pos
      ensures ok <==> 0 <= to
      ensures pos == if ok then to else old(pos)
    {
      ok := 0 <= to;
      if ok {
        pos := to;
      }
    }

    /** One `Read` into `buf[lo..hi]`. It may return fewer bytes than asked for, but at least one
        before the end of the file; at or past the end it returns no byte and `io.EOF`. */
    method Read(buf: array<byte>, lo: nat, hi: nat) returns (n: nat, eof: bool)
      requires lo < hi <= buf.Length
      modifies this`pos, buf
      ensures eof <==> old(pos) >= |data|
      ensures eof ==> n == 0
      ensures !eof ==> 1 <= n <= hi - lo && old(pos) + n <= |data|
      ensures pos == old(pos) + n
      ensures !eof ==> buf[lo..lo + n] == data[old(pos)..old(pos) + n]
      ensures forall i | 0 <= i < buf.Length && !(lo <= i < lo + n) :: buf[i] == old(buf[i])
    {
      if pos >= |data| {
        return 0, true;
      }
      n :| 1 <= n <= hi - lo && pos + n <= |data|;
      forall i | 0 <= i < n {
        buf[lo + i] := data[pos + i];
      }
      pos, eof := pos + n, false;
    }

    /** One `Read` of at most n bytes, as a value. The end of the file may be reported together with
        its last bytes or by the next read. */
    method ReadSome(n: nat) returns (chunk: bytes, eof: bool)
      requires n > 0 && pos <= |data|
      modifies this`pos
      ensures pos == old(pos) + |chunk| <= |data| && |chunk| <= n
      ensures chunk == data[old(pos)..pos]
      ensures chunk == [] ==> old(pos) == |data|
      ensures eof ==> pos == |data|
    {
      if pos == |data| {
        return [], true;
      }
      var k :| 1 <= k <= n && pos + k <= |data|;
      chunk, pos := data[pos..pos + k], pos + k;
      eof := *;
      if pos < |data| {
        eof := false;
      }
    }

    /** `io.ReadFull` of the next n bytes; asking for nothing succeeds anywhere. */
    method ReadFull(n: nat) returns (r: Result<bytes>)
      modifies this`pos
      ensures r == if n == 0 then Ok([]) else SliceAt(data, old(pos), n)
      ensures r.Ok? ==> pos == old(pos) + n
    {
      if n == 0 {
        return Ok([]);
      }
      if pos + n > |data| {
        pos := Max(pos, |data|);
        return Err(UnexpectedEOF);
      }
      r, pos := Ok(data[pos..pos + n]), pos + n;
    }

    /** `ReadAt` fills the whole buffer or fails; it does not move the cursor. */
    method ReadAt(off: nat, n: nat) returns (r: Result<bytes>)
      ensures r == SliceAt(data, off, n)
    {
      r := if off + n <= |data| then Ok(data[off..off + n]) else Err(UnexpectedEOF);
    }
  }

  function SliceAt(data: bytes, off: nat, n: nat): Result<bytes> {
    if off + n <= |data| then Ok(data[off..off + n]) else Err(UnexpectedEOF)
  }

  lemma SliceOfSlice(data: bytes, a: nat, n: nat, off: nat, m: nat)
    requires a + n <= |data| && off + m <= n
    ensures data[a..a + n][off..off + m] == data[a + off..a + off + m]
  {
    var whole, part := data[a..a + n], data[a + off..a + off + m];
    assert forall i | 0 <= i < m :: whole[off + i] == data[a + off + i] == part[i];
  }

  lemma SliceJoin(data: bytes, a: nat, m: nat, n: nat)
    requires m <= n && a + n <= |data|
    ensures data[a..a + n] == data[a..a + m] + data[a + m..a + n]
  {
  }
}
