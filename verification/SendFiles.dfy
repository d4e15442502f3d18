/** rsyncsender/sender.go: answering one request, by a signature search or by sending the whole file. */
module SendFiles {
  import opened Bytes
  import opened Wire
  import opened Checksum
  import opened Files
  import opened MapStruct
  import opened SumHead
  import opened Tokens
  import opened Search
  import opened Matching
  import opened Sender

  /** sender.go: sendFile, with the file's length as its directory entry gives it. */
  method SendFile(st: Transfer, fileIndex: int32, f: OsFile, size: FileLength) returns (ghost toks: seq<Tok>)
    requires f.pos == 0
    modifies st.conn`wr, st.conn`writes, f`pos
    ensures st.conn.WroteShort()
    ensures AllSendable(toks, 0) && Literals(toks) == f.data
    ensures st.conn.wr == old(st.conn.wr) + Reply(fileIndex, st.seed, SumSizesSqroot(size), toks, f.data)
  {
    st.conn.WriteInt32(fileIndex);
    var sh := SumSizesSqroot(size);
    WriteHead(sh, st.conn);
    var h := new Hash(Le32(st.seed));
    toks := SendChunks(st, h, f);
    st.conn.WriteInt32(0);
    var sum := h.Sum();
    st.conn.Write(sum);
    ReplyAssembled(old(st.conn.wr), fileIndex, st.seed, sh, toks, f.data);
  }

  /** The loop of sendFile: whatever sizes the reads come in, every byte goes out once, in order. */
  method SendChunks(st: Transfer, h: Hash, f: OsFile) returns (ghost toks: seq<Tok>)
    requires f.pos == 0
    modifies st.conn`wr, st.conn`writes, f`pos, h
    ensures st.conn.WroteShort()
    ensures AllSendable(toks, 0) && Literals(toks) == f.data
    ensures st.conn.wr == old(st.conn.wr) + EncodeToks(toks)
    ensures h.absorbed == old(h.absorbed) + f.data
  {
    toks := [];
    NothingMore(st.conn.wr);
    NothingMore(h.absorbed);
    while true
      invariant st.conn.WroteShort()
      invariant f.pos <= |f.data| && AllSendable(toks, 0) && Literals(toks) == f.data[..f.pos]
      invariant st.conn.wr == old(st.conn.wr) + EncodeToks(toks)
      invariant h.absorbed == old(h.absorbed) + f.data[..f.pos]
      decreases |f.data| - f.pos
    {
      ghost var pos, wr := f.pos, st.conn.wr;
      var chunk, shouldBreak := f.ReadSome(CHUNK_SIZE);
      if |chunk| == 0 {
        break;
      }
      h.Write(chunk);
      st.conn.WriteInt32(|chunk|);
      st.conn.Write(chunk);
      ChunkAppended(f.data, pos, f.pos, toks, old(st.conn.wr), old(h.absorbed));
      toks := toks + [Lit(chunk)];
      if shouldBreak {
        break;
      }
    }
    assert f.data[..|f.data|] == f.data;
  }

  lemma ChunkAppended(data: bytes, pos: nat, pos': nat, toks: seq<Tok>, wr: bytes, absorbed: bytes)
    requires pos <= pos' <= |data|
    ensures var chunk := data[pos..pos'];
      && Literals(toks + [Lit(chunk)]) == Literals(toks) + chunk
      && data[..pos] + chunk == data[..pos']
      && absorbed + data[..pos] + chunk == absorbed + data[..pos']
      && wr + EncodeToks(toks) + Le32(|chunk|) + chunk == wr + EncodeToks(toks + [Lit(chunk)])
  {
    var chunk := data[pos..pos'];
    LiteralsAppend(toks, chunk);
    assert data[..pos] + chunk == data[..pos'];
    Assoc(absorbed, data[..pos], chunk);
    EncodeToksAppend(toks, [Lit(chunk)]);
    EncodeOne(Lit(chunk));
    Assoc(wr + EncodeToks(toks), Le32(|chunk|), chunk);
    Assoc(wr, EncodeToks(toks), Le32(|chunk|) + chunk);
  }

  /** A request for at least one block is one to search for, though its blocks may be empty. */
  lemma RequestHeadOk(inp: bytes)
    requires ParseRequest(inp).Ok?
    ensures var h := ParseRequest(inp).value.0;
      |h.sums| == h.count && (h.count >= 1 ==> SumsOk(h))
  {
    match ParseHead(inp)
    case Ok((h, r)) => ParsedSums(r, h, 0, 0);
  }

  /** sender.go: SendFiles, lines 46-91: reads the sums of a requested file and answers with its tokens. */
  method Answer(st: Transfer, fileIndex: int32, f: OsFile, size: FileLength)
    returns (r: Result<SumHead>, ghost ts: seq<Target>, ghost toks: seq<Tok>)
    requires f.pos == 0
    modifies st`lastMatch, st.conn, f`pos
    ensures st.conn.WroteShort()
    ensures match ParseRequest(old(st.conn.rd))
            case Err(e) => r == Err(e)
            case Ok((h, rest)) =>
              && st.conn.rd == rest
              && (r.Ok? ==> r.value == h)
              && (h.count == 0 ==>
                    && r.Ok? && AllSendable(toks, 0) && Literals(toks) == f.data
                    && st.conn.wr == old(st.conn.wr) + Reply(fileIndex, st.seed, SumSizesSqroot(size), toks, f.data))
              && (h.count > 0 ==>
                    && SumsOk(h) && TargetsOk(h, ts)
                    && r == (if Searchable(st.seed, f.data, h, ts) then Ok(h) else Err(Panic))
                    && (r.Ok? ==> toks == SearchTokens(st.seed, f.data, h, ts))
                    && (r.Ok? ==> st.conn.wr == old(st.conn.wr) + Reply(fileIndex, st.seed, h, toks, f.data)))
  {
    ts, toks := [], [];
    ghost var inp := st.conn.rd;
    var head :- ReceiveSums(st.conn);
    RequestHeadOk(inp);
    var targets, tagTable := BuildTargets(head);
    ts := targets;
    st.lastMatch := 0;
    if |head.sums| == 0 {
      toks := SendFile(st, fileIndex, f, size);
      return Ok(head), ts, toks;
    }
    var searched := st.HashSearch(targets, tagTable, head, fileIndex, f);
    if searched.Err? {
      return Err(searched.error), ts, toks;
    }
    toks := SearchTokens(st.seed, f.data, head, ts);
    return Ok(head), ts, toks;
  }
}
