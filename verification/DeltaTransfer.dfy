/** The delta transfer from end to end: the generator's request, the sender's answer, the receiver's replay. */
module DeltaTransfer {
  import opened Bytes
  import opened Wire
  import opened Checksum
  import opened Files
  import opened MapStruct
  import opened SumHead
  import opened Tokens
  import opened Search
  import opened Matching
  import opened Sender
  import opened SendFiles
  import opened Receiver

  /** Whether the search serves the file, for one order of the targets and so for every order. */
  ghost predicate Served(seed: int32, file: bytes, head: SumHead)
    requires HeadOk(head)
  {
    exists ts :: TargetsOk(head, ts) && Searchable(seed, file, head, ts)
  }

  /** How the sort leaves ties between equal tags does not decide whether a search succeeds. */
  lemma SearchableTieFree(seed: int32, file: bytes, head: SumHead, ts: seq<Target>, ts': seq<Target>)
    requires HeadOk(head) && TargetsOk(head, ts) && TargetsOk(head, ts')
    ensures Searchable(seed, file, head, ts) <==> Searchable(seed, file, head, ts')
  {
    PlanIsOk(seed, file, head, ts);
    PlanIsOk(seed, file, head, ts');
    var p, q := PlanOf(seed, file, head, ts), PlanOf(seed, file, head, ts');
    forall o | 0 <= o < |file| ensures p.picks[o].Some? == q.picks[o].Some? {
      ChoiceComplete(seed, head, ts, Window(file, head, o));
      ChoiceComplete(seed, head, ts', Window(file, head, o));
    }
    if file != [] {
      p.ServableTieFree(q, DefWindow(head.blockLength), 0, 0);
    }
  }

  /** A non-empty file of whole kilobytes, or one no longer than the default window, is served whatever
      the signature is. */
  lemma ServedAlways(seed: int32, file: bytes, head: SumHead, ts: seq<Target>)
    requires HeadOk(head) && file != []
    requires |file| % ALIGN_BOUNDARY == 0 || |file| <= DefWindow(head.blockLength)
    ensures Searchable(seed, file, head, ts)
  {
    PlanIsOk(seed, file, head, ts);
    PlanOf(seed, file, head, ts).ServableAlways(DefWindow(head.blockLength), 0, 0);
  }

  /** The header that goes with a basis, before its sums are filled in. */
  ghost function Geometry(basis: bytes): (h: SumHead)
    requires Sized(|basis|)
    ensures Describes(h, |basis|) && h.sums == []
  {
    GeometryDescribes(|basis|);
    SumSizesSqroot(|basis|)
  }

  /** A window of the file that has the length, the weak sum and the strong sum of a block is that block. */
  ghost predicate CollisionFree(seed: int32, file: bytes, basis: bytes)
    requires Sized(|basis|)
  {
    var h := Geometry(basis);
    forall o: nat, i: nat | o < |file| && i < h.count :: SumsTellApart(seed, Window(file, h, o), Block(h, basis, i))
  }

  ghost predicate SumsTellApart(seed: int32, w: bytes, b: bytes) {
    |w| == |b| && Weak(w) == Weak(b) && MD4(w + Le32(seed)) == MD4(b + Le32(seed)) ==> w == b
  }

  lemma BlockIgnoresSums(h: SumHead, h': SumHead, basis: bytes, i: nat)
    requires Describes(h', |basis|) && h == h'.(sums := h.sums) && i < h.count
    ensures Describes(h, |basis|) && Block(h, basis, i) == Block(h', basis, i)
  {
  }

  lemma {:induction false} ReplayIgnoresSums(toks: seq<Tok>, h: SumHead, basis: bytes)
    requires Describes(h, |basis|)
    ensures Replay(toks, h, basis) == Replay(toks, h.(sums := []), basis)
  {
    if toks != [] {
      ReplayIgnoresSums(toks[1..], h, basis);
      if toks[0].Copy? && toks[0].index < h.count {
        BlockIgnoresSums(h, h.(sums := []), basis, toks[0].index);
      }
    }
  }

  /** The signature of a basis is a header to search against, and it describes the basis. */
  lemma SignatureOk(seed: int32, basis: bytes)
    requires Sized(|basis|) && basis != []
    ensures HeadOk(Signature(seed, basis)) && Describes(Signature(seed, basis), |basis|)
  {
    var sh, h := Geometry(basis), Signature(seed, basis);
    BlocksTile(|basis|);
    forall i | 0 <= i < |h.sums| ensures SumOk(h, h.sums[i]) {
      SumsToAt(seed, sh, basis, sh.count, i);
      BlockFits(sh, |basis|, i);
    }
  }

  /** A block that agrees with a window is the window. */
  lemma AgreeingBlock(seed: int32, file: bytes, basis: bytes, o: nat, i: nat)
    requires Sized(|basis|) && basis != [] && CollisionFree(seed, file, basis) && o < |file|
    requires HeadOk(Signature(seed, basis)) && Describes(Signature(seed, basis), |basis|)
    requires Agrees(seed, Signature(seed, basis), Window(file, Signature(seed, basis), o), i)
    ensures Window(file, Signature(seed, basis), o) == Block(Signature(seed, basis), basis, i)
  {
    var sh, h := Geometry(basis), Signature(seed, basis);
    SumsToAt(seed, sh, basis, sh.count, i);
    BlockIgnoresSums(h, sh, basis, i);
    assert SumsTellApart(seed, Window(file, sh, o), Block(sh, basis, i));
  }

  /** Sums that tell the windows from the blocks leave no false match. */
  lemma CollisionFreeMatches(seed: int32, file: bytes, basis: bytes)
    requires Sized(|basis|) && basis != [] && CollisionFree(seed, file, basis)
    ensures HeadOk(Signature(seed, basis)) && Describes(Signature(seed, basis), |basis|)
    ensures NoCollision(seed, file, Signature(seed, basis), basis)
  {
    SignatureOk(seed, basis);
    var h := Signature(seed, basis);
    forall o: nat, i: nat | o < |file| && Agrees(seed, h, Window(file, h, o), i)
      ensures Window(file, h, o) == Block(h, basis, i)
    {
      AgreeingBlock(seed, file, basis, o, i);
    }
  }

  /** What the receiver rebuilds from a search against the signature of its basis. */
  ghost function Rebuilt(seed: int32, file: bytes, basis: bytes, ts: seq<Target>): bytes
    requires Sized(|basis|) && basis != [] && file != []
  {
    SignatureOk(seed, basis);
    var h := Signature(seed, basis);
    Replay(SearchTokens(seed, file, h, ts), h, basis)
  }

  /** Without a collision, that is the file. */
  lemma RebuiltIsFile(seed: int32, file: bytes, basis: bytes, ts: seq<Target>)
    requires Sized(|basis|) && basis != [] && file != [] && CollisionFree(seed, file, basis)
    ensures Rebuilt(seed, file, basis, ts) == file
  {
    CollisionFreeMatches(seed, file, basis);
    var h := Signature(seed, basis);
    NoCollisionFaithful(seed, file, h, ts, basis);
    PlanOf(seed, file, h, ts).GreedyRebuilds(basis);
  }

  // ---------- The request ----------

  /** The empty header that asks for a whole file. */
  const NO_SUMS := SumHead(0, 0, 0, 0, [])

  /** On the wire it is sixteen zero bytes. */
  lemma NoSumsBytes()
    ensures EncodeHead(NO_SUMS) == [0, 0, 0, 0, 0, 0, 0, 0, 0, 0, 0, 0, 0, 0, 0, 0]
  {
    WordBytes(0);
  }

  /** generator.go: the request for a file, with the sums of the local copy or, when there is none to
      open, with an empty header. */
  ghost function Asked(seed: int32, local: Option<bytes>): bytes
    requires LocalReadable(local)
  {
    if local.Some? then Request(seed, local.value) else EncodeHead(NO_SUMS)
  }

  predicate LocalReadable(local: Option<bytes>) { local.Some? ==> |local.value| < MAX_FILE }

  /** The geometry of the copy is one that the sender accepts. */
  predicate LocalOk(local: Option<bytes>) { local.Some? ==> Sized(|local.value|) }

  /** No local copy, or one with nothing in it. */
  predicate Fresh(local: Option<bytes>) { local.None? || local.value == [] }

  method RequestFile(seed: int32, c: Conn, local: Option<bytes>)
    requires LocalReadable(local)
    modifies c`wr, c`writes
    ensures c.wr == old(c.wr) + Asked(seed, local) && c.WroteShort()
  {
    if local.None? {
      WriteHead(NO_SUMS, c);
      return;
    }
    var input := new OsFile(local.value);
    var sent := GenerateAndSendSums(seed, c, input, |local.value|);
    assert local.value[..|local.value|] == local.value;
  }

  /** What the sender learns from the request. */
  ghost function Requested(seed: int32, local: Option<bytes>): SumHead
    requires LocalOk(local)
  {
    if local.Some? then Signature(seed, local.value) else NO_SUMS
  }

  lemma RequestUnderstood(seed: int32, local: Option<bytes>, rest: bytes)
    requires LocalOk(local)
    ensures ParseRequest(Asked(seed, local) + rest) == Ok((Requested(seed, local), rest))
    ensures var h := Requested(seed, local);
      && (h.count == 0 <==> Fresh(local))
  {
    if local.Some? {
      BlocksTile(|local.value|);
      RequestRoundTrip(seed, local.value, rest);
    } else {
      HeadRoundTrip(NO_SUMS, rest);
      ParseRequestStep(EncodeHead(NO_SUMS) + rest, NO_SUMS, rest, [], rest);
    }
  }

  /** The sender refuses a request for a copy of which the blocks are too long. */
  lemma LongCopyRefused(seed: int32, local: Option<bytes>, rest: bytes)
    requires LocalReadable(local) && !LocalOk(local)
    ensures ParseRequest(Asked(seed, local) + rest) == Err(InvalidBlockLength)
  {
    var h := SumSizesSqroot(|local.value|);
    BlocksTile(|local.value|);
    Assoc(EncodeHead(h), SumStream(seed, h, local.value, 0), rest);
    LongBlocksRefused(h, SumStream(seed, h, local.value, 0) + rest);
  }

  // ---------- The reply ----------

  /** Whatever follows it on the stream, the receiver reads the reply as one to this index, up to its
      last byte, with this result. */
  ghost predicate Yields(reply: bytes, index: int32, seed: int32, local: Option<bytes>, out: Result<bytes>) {
    forall rest :: YieldsBefore(reply, index, seed, local, out, rest)
  }

  ghost predicate YieldsBefore(reply: bytes, index: int32, seed: int32, local: Option<bytes>, out: Result<bytes>,
                               rest: bytes)
  {
    && ParseInt32(reply + rest).Ok? && ParseInt32(reply + rest).value.0 == index
    && ParseReply(ParseInt32(reply + rest).value.1, local, seed)
       == match out
          case Ok(o) => Ok((o, rest))
          case Err(e) => Err(e)
  }

  /** A file sent whole, with a header that the receiver refuses. */
  predicate Refused(local: Option<bytes>, file: bytes) { Fresh(local) && !Sized(|file|) }

  /** What can become of a file: with no local copy, or an empty one, it arrives, unless the geometry of so
      long a file is refused; it arrives as well if the sums tell windows from blocks; and nothing else
      arrives than what has its MD4. */
  ghost predicate Arrives(seed: int32, local: Option<bytes>, file: bytes, out: Result<bytes>)
    requires LocalOk(local)
  {
    if Refused(local, file) then out == Err(InvalidBlockLength)
    else
      && (Fresh(local) || CollisionFree(seed, file, local.value) ==> out == Ok(file))
      && (out.Ok? ==> MD4(Le32(seed) + out.value) == MD4(Le32(seed) + file))
      && (out.Err? ==> out == Err(FileCorruption))
  }

  /** What becomes of a search's reply at the receiver, collisions or not. */
  ghost function SearchResult(seed: int32, file: bytes, basis: bytes, ts: seq<Target>): Result<bytes>
    requires Sized(|basis|) && basis != [] && file != []
  {
    var out := Rebuilt(seed, file, basis, ts);
    if MD4(Le32(seed) + out) == MD4(Le32(seed) + file) then Ok(out) else Err(FileCorruption)
  }

  lemma SearchYields(index: int32, seed: int32, file: bytes, basis: bytes, ts: seq<Target>)
    requires Sized(|basis|) && basis != [] && file != []
    requires HeadOk(Signature(seed, basis))
    ensures var h := Signature(seed, basis);
      Yields(Reply(index, seed, h, SearchTokens(seed, file, h, ts), file), index, seed, Some(basis),
             SearchResult(seed, file, basis, ts))
    ensures Arrives(seed, Some(basis), file, SearchResult(seed, file, basis, ts))
  {
    SignatureOk(seed, basis);
    var h := Signature(seed, basis);
    PlanIsOk(seed, file, h, ts);
    PlanOf(seed, file, h, ts).GreedySendable(0, 0);
    var toks, out := SearchTokens(seed, file, h, ts), SearchResult(seed, file, basis, ts);
    ReplayIgnoresSums(toks, h, basis);
    var reply := Reply(index, seed, h, toks, file);
    forall rest ensures YieldsBefore(reply, index, seed, Some(basis), out, rest) {
      ReplyReceived(index, seed, h, toks, file, basis, rest);
    }
    if CollisionFree(seed, file, basis) {
      RebuiltIsFile(seed, file, basis, ts);
    }
  }

  lemma LiteralsYield(index: int32, seed: int32, h: SumHead, toks: seq<Tok>, local: Option<bytes>)
    requires InRange(h) && AllSendable(toks, 0)
    ensures Yields(Reply(index, seed, h, toks, Literals(toks)), index, seed, local, Ok(Literals(toks)))
  {
    forall rest
      ensures YieldsBefore(Reply(index, seed, h, toks, Literals(toks)), index, seed, local, Ok(Literals(toks)), rest)
    {
      LiteralsReceived(index, seed, h, toks, local, rest);
    }
  }

  /** A header with blocks above the limit is refused, whatever comes behind it. */
  lemma RefusedYields(index: int32, seed: int32, h: SumHead, toks: seq<Tok>, file: bytes, local: Option<bytes>)
    requires h.count >= 0 && h.blockLength > MAX_BLOCK_LEN
    ensures Yields(Reply(index, seed, h, toks, file), index, seed, local, Err(InvalidBlockLength))
  {
    var sum := MD4(Le32(seed) + file);
    forall rest
      ensures YieldsBefore(Reply(index, seed, h, toks, file), index, seed, local, Err(InvalidBlockLength), rest)
    {
      BodyRead(index, h, toks, sum, rest);
      LongBlocksRefused(h, EncodeToks(toks) + (Le32(0) + (sum + rest)));
    }
  }

  /** The reply that carries a file whole. */
  lemma WholeFileYields(index: int32, seed: int32, toks: seq<Tok>, file: bytes, local: Option<bytes>)
    requires LocalOk(local) && Fresh(local) && |file| < MAX_FILE && AllSendable(toks, 0) && Literals(toks) == file
    ensures var out := if Sized(|file|) then Ok(file) else Err(InvalidBlockLength);
      && Yields(Reply(index, seed, SumSizesSqroot(|file|), toks, file), index, seed, local, out)
      && Arrives(seed, local, file, out)
  {
    BlocksTile(|file|);
    if Sized(|file|) {
      LiteralsYield(index, seed, SumSizesSqroot(|file|), toks, local);
    } else {
      RefusedYields(index, seed, SumSizesSqroot(|file|), toks, file, local);
    }
  }

  lemma ServedBy(seed: int32, file: bytes, head: SumHead, ts: seq<Target>)
    requires HeadOk(head) && TargetsOk(head, ts)
    ensures Served(seed, file, head) <==> Searchable(seed, file, head, ts)
  {
    if Served(seed, file, head) {
      var ts' :| TargetsOk(head, ts') && Searchable(seed, file, head, ts');
      SearchableTieFree(seed, file, head, ts, ts');
    }
  }

  /** The sender panics exactly when there is something to search against that does not serve the file. */
  ghost predicate Panicking(seed: int32, local: Option<bytes>, file: bytes)
    requires LocalOk(local)
  {
    !Fresh(local) && HeadOk(Signature(seed, local.value)) && !Served(seed, file, Signature(seed, local.value))
  }

  /** An empty file panics the sender whenever there is something to search against: the first visit finds
      no window and no byte to roll on from. */
  lemma EmptyPanics(seed: int32, basis: bytes)
    requires Sized(|basis|) && basis != []
    ensures Panicking(seed, Some(basis), [])
  {
    SignatureOk(seed, basis);
  }

  /** Every block of a basis agrees with the window at its own place in the basis. */
  lemma BlockAgrees(seed: int32, basis: bytes, i: nat)
    requires Sized(|basis|) && basis != [] && HeadOk(Signature(seed, basis))
    requires Describes(Signature(seed, basis), |basis|) && i < Signature(seed, basis).count
    ensures var h := Signature(seed, basis);
      && Off(h.blockLength, i) < |basis| && h.sums[i].len == BlockLen(h, i)
      && Agrees(seed, h, Window(basis, h, Off(h.blockLength, i)), i)
  {
    var sh, h := Geometry(basis), Signature(seed, basis);
    SumsToAt(seed, sh, basis, sh.count, i);
    BlockIgnoresSums(h, sh, basis, i);
    BlockFits(h, |basis|, i);
    if i < h.count - 1 {
      OffMonotone(h.blockLength, i + 1, h.count - 1);
    }
    assert Window(basis, h, Off(h.blockLength, i)) == Block(h, basis, i);
  }

  /** A file sent against its own signature goes out as references alone, one for each block, and is served
      whatever its length. */
  lemma UnchangedFile(seed: int32, basis: bytes, ts: seq<Target>)
    requires Sized(|basis|) && basis != [] && TargetsOk(Signature(seed, basis), ts)
    ensures HeadOk(Signature(seed, basis))
    ensures Searchable(seed, basis, Signature(seed, basis), ts)
    ensures var toks := SearchTokens(seed, basis, Signature(seed, basis), ts);
      |toks| == Signature(seed, basis).count && OnlyCopies(toks)
  {
    SignatureOk(seed, basis);
    var h := Signature(seed, basis);
    PlanIsOk(seed, basis, h, ts);
    var p := PlanOf(seed, basis, h, ts);
    forall i: nat | i < h.count ensures p.PicksBlock(i) {
      BlockAgrees(seed, basis, i);
      ChoiceComplete(seed, h, ts, Window(basis, h, Off(h.blockLength, i)));
    }
    BlockAgrees(seed, basis, h.count - 1);
    p.BlockByBlock(DefWindow(h.blockLength), 0);
  }

  /** So the sender never panics over a file that has not changed. */
  lemma UnchangedServed(seed: int32, basis: bytes)
    requires Sized(|basis|)
    ensures !Panicking(seed, Some(basis), basis)
  {
    if basis != [] {
      SignatureOk(seed, basis);
      var ts := SomeTargets(Signature(seed, basis));
      UnchangedFile(seed, basis, ts);
    }
  }

  /** The sender's side: takes a request off the stream and appends the reply. */
  method SendReply(st: Transfer, index: int32, file: bytes, ghost local: Option<bytes>, ghost rest: bytes)
    returns (r: Result<()>, ghost reply: bytes, ghost out: Result<bytes>)
    requires LocalReadable(local) && |file| < MAX_FILE
    requires st.conn.rd == Asked(st.seed, local) + rest
    modifies st`lastMatch, st.conn
    ensures st.conn.WroteShort()
    ensures !LocalOk(local) ==> r == Err(InvalidBlockLength)
    ensures LocalOk(local) ==> st.conn.rd == rest
    ensures LocalOk(local) ==> r == if Panicking(st.seed, local, file) then Err(Panic) else Ok(())
    ensures r.Ok? ==> st.conn.wr == old(st.conn.wr) + reply
    ensures r.Ok? ==> Yields(reply, index, st.seed, local, out) && Arrives(st.seed, local, file, out)
  {
    if LocalOk(local) {
      RequestUnderstood(st.seed, local, rest);
    } else {
      LongCopyRefused(st.seed, local, rest);
    }
    var f := new OsFile(file);
    ghost var ts, toks;
    var answer;
    answer, ts, toks := Answer(st, index, f, |file|);
    reply, out := [], Ok(file);
    if LocalOk(local) {
      if Fresh(local) {
        reply := Reply(index, st.seed, SumSizesSqroot(|file|), toks, file);
        out := if Sized(|file|) then Ok(file) else Err(InvalidBlockLength);
        WholeFileYields(index, st.seed, toks, file, local);
      } else {
        ghost var h := Signature(st.seed, local.value);
        SignatureOk(st.seed, local.value);
        ServedBy(st.seed, file, h, ts);
        if answer.Ok? {
          SearchYields(index, st.seed, file, local.value, ts);
          reply, out := Reply(index, st.seed, h, toks, file), SearchResult(st.seed, file, local.value, ts);
        }
      }
    }
    if answer.Err? {
      return Err(answer.error), reply, out;
    }
    r := Ok(());
  }

  /** receiver.go: recvFile1 outside a dry run, after the index. */
  method ReceiveFile(c: Conn, seed: int32, local: Option<bytes>) returns (r: Result<bytes>)
    modifies c`rd
    ensures match ParseReply(old(c.rd), local, seed)
            case Ok((out, rest)) => r == Ok(out) && c.rd == rest
            case Err(e) => r == Err(e)
  {
    var localFile: Option<OsFile> := None;
    if local.Some? {
      var lf := new OsFile(local.value);
      localFile := Some(lf);
    }
    var w := new Pipe();
    ghost var inp := c.rd;
    var done := ReceiveData(c, localFile, seed, w);
    if done.Err? {
      return Err(done.error);
    }
    NothingBefore(w.data);
    if ParseBody(inp, local).Ok? { NothingBefore(ParseBody(inp, local).value.0); }
    r := Ok(w.data);
  }

  // ---------- The transfer of one file ----------

  /** One file through all three processes: it arrives as `Arrives` says, unless the sender refuses the
      request or panics. */
  method Synchronize(seed: int32, index: int32, local: Option<bytes>, file: bytes) returns (r: Result<bytes>)
    requires |file| < MAX_FILE && LocalReadable(local)
    ensures !LocalOk(local) ==> r == Err(InvalidBlockLength)
    ensures LocalOk(local) ==> (r == Err(Panic) <==> Panicking(seed, local, file))
    ensures LocalOk(local) && r != Err(Panic) ==> Arrives(seed, local, file, r)
  {
    var toSender := new Conn([]);
    RequestFile(seed, toSender, local);
    NothingBefore(Asked(seed, local));
    NothingMore(Asked(seed, local));
    var conn := new Conn(toSender.wr);
    var st := new Transfer(conn, seed);
    var sent, reply, out := SendReply(st, index, file, local, []);
    if sent.Err? {
      return Err(sent.error);
    }
    NothingBefore(reply);
    NothingMore(reply);
    assert YieldsBefore(reply, index, seed, local, out, []);
    var toReceiver := new Conn(conn.wr);
    var idx := toReceiver.ReadInt32();
    r := ReceiveFile(toReceiver, seed, local);
  }
}
