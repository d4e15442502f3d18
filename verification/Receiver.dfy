/** rsyncreceiver/token.go and receiver.go: rebuilding a file from its tokens and the local basis. */
module Receiver {
  import opened Bytes
  import opened Wire
  import opened Checksum
  import opened Files
  import opened SumHead
  import opened Tokens

  /** The writing end of the pipe whose other end stores the file. */
  class Pipe {
    var data: bytes
    var closed: bool

    constructor ()
      ensures data == [] && !closed
    {
      data, closed := [], false;
    }

    method Write(p: bytes)
      modifies this`data
      ensures data == old(data) + p
    {
      data := data + p;
    }

    method Close()
      modifies this`closed
      ensures closed
    {
      closed := true;
    }
  }

  /** What a reply's header and tokens produce, and what they leave unread. */
  function ParseBody(inp: bytes, local: Option<bytes>): Result<(bytes, bytes)> {
    var (h, r) :- ParseHead(inp);
    ParseTokens(r, local, h)
  }

  /** A whole reply after its index: the file, when its MD4 is the one the sender appended. */
  function ParseReply(inp: bytes, local: Option<bytes>, seed: int32): Result<(bytes, bytes)> {
    var (out, r) :- ParseBody(inp, local);
    var (remoteSum, rest) :- ParseBytes(r, 16);
    if MD4(Le32(seed) + out) != remoteSum then Err(FileCorruption) else Ok((out, rest))
  }

  ghost function Content(f: Option<OsFile>): Option<bytes> {
    if f.Some? then Some(f.value.data) else None
  }

  /** token.go: recvToken. A positive token is the length of the literal data that follows it. */
  function ParseToken(inp: bytes): Result<((int32, bytes), bytes)> {
    var (token, r) :- ParseInt32(inp);
    if token <= 0 then Ok(((token, []), r))
    else
      var (data, r') :- ParseBytes(r, token);
      Ok(((token, data), r'))
  }

  method RecvToken(c: Conn) returns (r: Result<(int32, bytes)>)
    modifies c`rd
    ensures match ParseToken(old(c.rd))
            case Ok((t, rest)) => r == Ok(t) && c.rd == rest
            case Err(e) => r == Err(e)
  {
    var token :- c.ReadInt32();
    if token <= 0 {
      return Ok((token, []));
    }
    var data :- c.ReadFull(token);
    r := Ok((token, data));
  }

  /** The bytes of block `token` of the local file. */
  method ReadLocal(localFile: Option<OsFile>, sh: SumHead, token: nat) returns (r: Result<bytes>)
    requires InRange(sh)
    ensures r == ReadBlock(Content(localFile), sh, token)
  {
    if localFile.None? {
      return Err(NoLocalFile);
    }
    var offset2: nat := token * sh.blockLength;
    var dataLen := sh.blockLength;
    if token == sh.count - 1 && sh.remainder != 0 {
      dataLen := sh.remainder;
    }
    r := localFile.value.ReadAt(offset2, dataLen);
  }

  /** One round of receiveData's loop: the bytes of the next token, or nothing at the end mark. */
  function ParseNext(inp: bytes, local: Option<bytes>, h: SumHead): Result<(Option<bytes>, bytes)>
    requires InRange(h)
  {
    var ((token, data), r) :- ParseToken(inp);
    if token == 0 then Ok((None, r))
    else if token > 0 then Ok((Some(data), r))
    else
      var block :- ReadBlock(local, h, -(token + 1));
      Ok((Some(block), r))
  }

  lemma ParseTokensStop(inp: bytes, local: Option<bytes>, h: SumHead)
    requires InRange(h)
    ensures ParseNext(inp, local, h).Err? ==>
      ParseTokens(inp, local, h) == Err(ParseNext(inp, local, h).error)
    ensures ParseNext(inp, local, h).Ok? && ParseNext(inp, local, h).value.0.None? ==>
      ParseTokens(inp, local, h) == Ok(([], ParseNext(inp, local, h).value.1))
  {
  }

  lemma ParseTokensStep(inp: bytes, local: Option<bytes>, h: SumHead, data: bytes, r: bytes)
    requires InRange(h) && ParseNext(inp, local, h) == Ok((Some(data), r))
    ensures ParseTokens(inp, local, h) == Prepend(data, ParseTokens(r, local, h))
  {
    match ParseTokens(r, local, h)
    case Err(_) =>
    case Ok((out, rest)) =>
  }

  lemma PrependAll<T>(a: seq<T>, b: seq<T>, r: Result<(seq<T>, bytes)>)
    ensures Prepend(a, Prepend(b, r)) == Prepend(a + b, r)
  {
    if r.Ok? {
      Assoc(a, b, r.value.0);
    }
  }

  method RecvNext(c: Conn, localFile: Option<OsFile>, sh: SumHead) returns (r: Result<Option<bytes>>)
    requires InRange(sh)
    modifies c`rd
    ensures match ParseNext(old(c.rd), Content(localFile), sh)
            case Ok((d, rest)) => r == Ok(d) && c.rd == rest
            case Err(e) => r == Err(e)
    ensures r.Ok? && r.value.Some? ==> |c.rd| < |old(c.rd)|
  {
    var t :- RecvToken(c);
    var token, data := t.0, t.1;
    if token == 0 {
      return Ok(None);
    }
    if token > 0 {
      return Ok(Some(data));
    }
    var block :- ReadLocal(localFile, sh, -(token + 1));
    r := Ok(Some(block));
  }

  /** The loop of receiveData, which writes every token's bytes to the hash and to the pipe. */
  method RecvTokens(c: Conn, localFile: Option<OsFile>, sh: SumHead, w: Pipe, seed: int32)
    returns (r: Result<()>, ghost out: bytes, absorbed: bytes)
    requires InRange(sh)
    modifies c`rd, w`data
    ensures match ParseTokens(old(c.rd), Content(localFile), sh)
            case Ok((o, rest)) =>
              r.Ok? && c.rd == rest && out == o && w.data == old(w.data) + o && absorbed == Le32(seed) + o
            case Err(e) => r == Err(e)
  {
    ghost var inp := c.rd;
    out := [];
    absorbed := Le32(seed);
    ghost var local := Content(localFile);
    PrependStart(ParseTokens(inp, local, sh));
    assert w.data + [] == w.data && absorbed + [] == absorbed;
    while true
      invariant w.data == old(w.data) + out && absorbed == Le32(seed) + out
      invariant ParseTokens(inp, local, sh) == Prepend(out, ParseTokens(c.rd, local, sh))
      decreases |c.rd|
    {
      ghost var before := c.rd;
      ParseTokensStop(before, local, sh);
      var d := RecvNext(c, localFile, sh);
      if d.Err? {
        r := Err(d.error);
        return;
      }
      if d.value.None? {
        break;
      }
      ParseTokensStep(before, local, sh, d.value.value, c.rd);
      PrependAll(out, d.value.value, ParseTokens(c.rd, local, sh));
      Assoc(old(w.data), out, d.value.value);
      Assoc(Le32(seed), out, d.value.value);
      absorbed := absorbed + d.value.value;
      w.Write(d.value.value);
      out := out + d.value.value;
    }
    assert out + [] == out;
    r := Ok(());
  }

  /** receiver.go: receiveData. The pipe has the whole file, and is closed, before the sum is checked. */
  method ReceiveData(c: Conn, localFile: Option<OsFile>, seed: int32, w: Pipe) returns (r: Result<()>)
    modifies c`rd, w
    ensures match ParseReply(old(c.rd), Content(localFile), seed)
            case Ok((out, rest)) => r.Ok? && c.rd == rest
            case Err(e) => r == Err(e)
    ensures match ParseBody(old(c.rd), Content(localFile))
            case Ok((out, _)) => w.data == old(w.data) + out && w.closed
            case Err(_) => w.closed == old(w.closed)
  {
    var sh :- ReadHead(c);
    var loop, out, absorbed := RecvTokens(c, localFile, sh, w, seed);
    if loop.Err? {
      return Err(loop.error);
    }
    w.Close();
    var localSum := MD4(absorbed);
    var remoteSum :- c.ReadFull(16);
    if localSum != remoteSum {
      return Err(FileCorruption);
    }
    r := Ok(());
  }

  // ---------- What a reply turns into ----------

  lemma SumRead(sum: bytes, rest: bytes)
    requires |sum| == 16
    ensures ParseBytes(sum + rest, 16) == Ok((sum, rest))
  {
    ParseBytesRoundTrip(sum, rest);
  }

  /** A reply with tokens over a described basis is accepted if and only if the replay has the sum of
      the file that was sent, and what is accepted is the replay; nothing past the sum is consumed. */
  lemma ReplyReceived(index: int32, seed: int32, h: SumHead, toks: seq<Tok>, file: bytes, basis: bytes, rest: bytes)
    requires Describes(h, |basis|) && AllSendable(toks, h.count)
    ensures ParseInt32(Reply(index, seed, h, toks, file) + rest).Ok?
    ensures var (i, body) := ParseInt32(Reply(index, seed, h, toks, file) + rest).value;
      var out := Replay(toks, h.(sums := []), basis);
      && i == index
      && ParseReply(body, Some(basis), seed)
         == (if MD4(Le32(seed) + out) == MD4(Le32(seed) + file) then Ok((out, rest)) else Err(FileCorruption))
  {
    var sum := MD4(Le32(seed) + file);
    var h0 := h.(sums := []);
    BodyRead(index, h, toks, sum, rest);
    HeadRoundTrip(h, EncodeToks(toks) + (Le32(0) + (sum + rest)));
    TokensRoundTrip(toks, h0, basis, sum + rest);
    SumRead(sum, rest);
  }

  /** The same for a file sent as literals only: then no local file is needed and the file comes back. */
  lemma LiteralsReceived(index: int32, seed: int32, h: SumHead, toks: seq<Tok>, local: Option<bytes>, rest: bytes)
    requires InRange(h) && AllSendable(toks, 0)
    ensures ParseInt32(Reply(index, seed, h, toks, Literals(toks)) + rest).Ok?
    ensures var (i, body) := ParseInt32(Reply(index, seed, h, toks, Literals(toks)) + rest).value;
      i == index && ParseReply(body, local, seed) == Ok((Literals(toks), rest))
  {
    var sum := MD4(Le32(seed) + Literals(toks));
    BodyRead(index, h, toks, sum, rest);
    HeadRoundTrip(h, EncodeToks(toks) + (Le32(0) + (sum + rest)));
    LiteralsRoundTrip(toks, local, h.(sums := []), sum + rest);
    SumRead(sum, rest);
  }

  lemma BodyRead(index: int32, h: SumHead, toks: seq<Tok>, sum: bytes, rest: bytes)
    ensures ParseInt32(Le32(index) + (EncodeHead(h) + (EncodeToks(toks) + (Le32(0) + sum))) + rest)
         == Ok((index, EncodeHead(h) + (EncodeToks(toks) + (Le32(0) + (sum + rest)))))
  {
    var a, b, c, d := Le32(index), EncodeHead(h), EncodeToks(toks), Le32(0);
    Assoc(a, b + (c + (d + sum)), rest);
    Assoc(b, c + (d + sum), rest);
    Assoc(c, d + sum, rest);
    Assoc(d, sum, rest);
    ParseInt32RoundTrip(index, b + (c + (d + (sum + rest))));
  }
}
