/** rsyncwire/wire.go: integers on a connection and the multiplex framing. */
module Wire {
  import opened Bytes

  /** The largest message ReadMsg accepts. */
  const MAX_MESSAGE_SIZE := 256 * 1024

  /** Reading a value off the front of the bytes the peer has sent. */
  function ParseBytes(inp: bytes, n: nat): Result<(bytes, bytes)> {
    if n <= |inp| then Ok((inp[..n], inp[n..])) else Err(UnexpectedEOF)
  }

  function ParseByte(inp: bytes): Result<(byte, bytes)> {
    if 1 <= |inp| then Ok((inp[0], inp[1..])) else Err(UnexpectedEOF)
  }

  function ParseInt32(inp: bytes): Result<(int32, bytes)> {
    if 4 <= |inp| then Ok((UnLe32(inp[..4]), inp[4..])) else Err(UnexpectedEOF)
  }

  function ParseInt64(inp: bytes): Result<(int64, bytes)> {
    var (short, rest) :- ParseInt32(inp);
    if short != -1 then Ok((short, rest))
    else if 8 <= |rest| then Ok((UnLe64(rest[..8]), rest[8..])) else Err(UnexpectedEOF)
  }

  /** The wire form of a 64-bit integer: four bytes when they suffice, else -1 and eight bytes. */
  function EncodeInt64(x: int64): bytes {
    if 0 <= x <= 0x7FFF_FFFF then Le32(x) else Le32(-1) + Le64(x)
  }

  lemma ParseBytesRoundTrip(b: bytes, rest: bytes)
    ensures ParseBytes(b + rest, |b|) == Ok((b, rest))
  {
    assert (b + rest)[..|b|] == b && (b + rest)[|b|..] == rest;
  }

  lemma ParseInt32RoundTrip(x: int32, rest: bytes)
    ensures ParseInt32(Le32(x) + rest) == Ok((x, rest))
  {
    Int32RoundTrip(x);
    assert (Le32(x) + rest)[..4] == Le32(x) && (Le32(x) + rest)[4..] == rest;
  }

  /** A word is read as the int32 with the same 32 bits. */
  lemma WordParsed(x: int, rest: bytes)
    ensures ParseInt32(Le32(x) + rest) == Ok((ToInt32(x), rest))
  {
    Le32OfInt32(x);
    ParseInt32RoundTrip(ToInt32(x), rest);
  }

  lemma ParseInt64RoundTrip(x: int64, rest: bytes)
    ensures ParseInt64(EncodeInt64(x) + rest) == Ok((x, rest))
  {
    if 0 <= x <= 0x7FFF_FFFF {
      ParseInt32RoundTrip(x, rest);
    } else {
      var tail := Le64(x) + rest;
      assert EncodeInt64(x) + rest == Le32(-1) + tail;
      ParseInt32RoundTrip(-1, tail);
      Int64RoundTrip(x);
      assert tail[..8] == Le64(x) && tail[8..] == rest;
    }
  }

  predicate AllShort(writes: seq<bytes>) {
    forall k | 0 <= k < |writes| :: |writes[k]| <= MAX_MESSAGE_SIZE
  }

  /** A partial parse `done` followed by the parse of what is left. */
  function Prepend<T>(done: seq<T>, r: Result<(seq<T>, bytes)>): Result<(seq<T>, bytes)> {
    match r
    case Ok((s, rest)) => Ok((done + s, rest))
    case Err(e) => Err(e)
  }

  lemma PrependStart<T>(r: Result<(seq<T>, bytes)>)
    ensures Prepend([], r) == r
  {
    if r.Ok? {
      assert [] + r.value.0 == r.value.0;
    }
  }

  lemma PrependStep<T>(done: seq<T>, x: T, r: Result<(seq<T>, bytes)>)
    ensures Prepend(done, Prepend([x], r)) == Prepend(done + [x], r)
  {
    if r.Ok? {
      assert done + ([x] + r.value.0) == (done + [x]) + r.value.0;
    }
  }

  /** rsyncwire.Conn. `rd` holds what the peer has sent and this side has not read yet, `wr` what this
      side has written, and `writes` the same write by write. */
  class Conn {
    var rd: bytes
    var wr: bytes
    var writes: seq<bytes>

    constructor (rd: bytes)
      ensures this.rd == rd && wr == [] && writes == [] && Framable()
    {
      this.rd, wr, writes := rd, [], [];
    }

    /** The writes make up what was written, and each is within what one message can carry. */
    ghost predicate Framable()
      reads this`wr, this`writes
    {
      Concat(writes) == wr && AllShort(writes)
    }

    /** The writes of a method fit messages, if those before it did. */
    twostate predicate WroteShort()
      reads this`wr, this`writes
    {
      old(Framable()) ==> Framable()
    }

    method Write(p: bytes)
      modifies this`wr, this`writes
      ensures wr == old(wr) + p && writes == old(writes) + [p]
      ensures |p| <= MAX_MESSAGE_SIZE ==> WroteShort()
    {
      ConcatSnoc(writes, p);
      wr, writes := wr + p, writes + [p];
    }

    method WriteInt32(data: int32)
      modifies this`wr, this`writes
      ensures wr == old(wr) + Le32(data) && WroteShort()
    {
      Write(Le32(data));
    }

    method WriteInt64(data: int64)
      modifies this`wr, this`writes
      ensures wr == old(wr) + EncodeInt64(data) && WroteShort()
    {
      if data <= 0x7FFF_FFFF && data >= 0 {
        WriteInt32(data);
        return;
      }
      WriteInt32(-1);
      Write(Le64(data));
      Assoc(old(wr), Le32(-1), Le64(data));
    }

    method ReadFull(n: nat) returns (r: Result<bytes>)
      modifies this`rd
      ensures match ParseBytes(old(rd), n)
              case Ok((b, rest)) => r == Ok(b) && rd == rest
              case Err(e) => r == Err(e)
    {
      if |rd| < n {
        rd := [];
        return Err(UnexpectedEOF);
      }
      r, rd := Ok(rd[..n]), rd[n..];
    }

    method ReadByte() returns (r: Result<byte>)
      modifies this`rd
      ensures match ParseByte(old(rd))
              case Ok((b, rest)) => r == Ok(b) && rd == rest
              case Err(e) => r == Err(e)
    {
      var buf :- ReadFull(1);
      r := Ok(buf[0]);
    }

    method ReadInt32() returns (r: Result<int32>)
      modifies this`rd
      ensures match ParseInt32(old(rd))
              case Ok((v, rest)) => r == Ok(v) && rd == rest
              case Err(e) => r == Err(e)
    {
      var buf :- ReadFull(4);
      r := Ok(UnLe32(buf));
    }

    method ReadInt64() returns (r: Result<int64>)
      modifies this`rd
      ensures match ParseInt64(old(rd))
              case Ok((v, rest)) => r == Ok(v) && rd == rest
              case Err(e) => r == Err(e)
    {
      var data :- ReadInt32();
      if data != -1 {
        return Ok(data);
      }
      var buf :- ReadFull(8);
      r := Ok(UnLe64(buf));
    }
  }
}
