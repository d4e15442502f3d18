/** The token stream that carries a file: literal data, references to blocks of the basis, an end mark. */
module Tokens {
  import opened Bytes
  import opened Wire
  import opened Checksum
  import opened SumHead

  /** rsyncsender/flist.go; the most literal bytes one token carries. */
  const CHUNK_SIZE := 256 * 1024

  datatype Tok = Lit(data: bytes) | Copy(index: nat)

  /** Tokens without their boundaries: one unit for each literal byte. */
  datatype Piece = Byte(b: byte) | Ref(index: nat)

  function Pieces(data: bytes): seq<Piece> {
    if data == [] then [] else [Byte(data[0])] + Pieces(data[1..])
  }

  lemma {:induction false} PiecesAppend(a: bytes, b: bytes)
    ensures Pieces(a + b) == Pieces(a) + Pieces(b)
  {
    if a == [] {
      assert a + b == b;
    } else {
      assert (a + b)[1..] == a[1..] + b;
      PiecesAppend(a[1..], b);
    }
  }

  function TokPieces(t: Tok): seq<Piece> {
    match t
    case Lit(data) => Pieces(data)
    case Copy(i) => [Ref(i)]
  }

  function Flatten(toks: seq<Tok>): seq<Piece> {
    if toks == [] then [] else TokPieces(toks[0]) + Flatten(toks[1..])
  }

  lemma {:induction false} FlattenAppend(a: seq<Tok>, b: seq<Tok>)
    ensures Flatten(a + b) == Flatten(a) + Flatten(b)
  {
    if a == [] {
      assert a + b == b;
    } else {
      assert (a + b)[1..] == a[1..] + b;
      FlattenAppend(a[1..], b);
      assert Flatten(a + b) == TokPieces(a[0]) + (Flatten(a[1..]) + Flatten(b));
    }
  }

  // ---------- Literals in chunks ----------

  /** file[from..end] as literal tokens of at most CHUNK_SIZE bytes. */
  function Chunks(file: bytes, from: nat, end: nat): seq<Tok>
    requires from <= end <= |file|
    decreases end - from
  {
    if from == end then []
    else
      var next := Min(from + CHUNK_SIZE, end);
      [Lit(file[from..next])] + Chunks(file, next, end)
  }

  lemma {:induction false} ChunksFlatten(file: bytes, from: nat, end: nat)
    requires from <= end <= |file|
    ensures Flatten(Chunks(file, from, end)) == Pieces(file[from..end])
    decreases end - from
  {
    if from < end {
      var next := Min(from + CHUNK_SIZE, end);
      ChunksFlatten(file, next, end);
      PiecesAppend(file[from..next], file[next..end]);
      assert file[from..end] == file[from..next] + file[next..end];
      var rest := Chunks(file, next, end);
      assert ([Lit(file[from..next])] + rest)[1..] == rest;
    }
  }

  // ---------- On the wire ----------

  function EncodeTok(t: Tok): bytes {
    match t
    case Lit(data) => Le32(|data|) + data
    case Copy(i) => Le32(-(i + 1))
  }

  function EncodeToks(toks: seq<Tok>): bytes {
    if toks == [] then [] else EncodeTok(toks[0]) + EncodeToks(toks[1..])
  }

  lemma {:induction false} EncodeToksAppend(a: seq<Tok>, b: seq<Tok>)
    ensures EncodeToks(a + b) == EncodeToks(a) + EncodeToks(b)
  {
    if a == [] {
      assert a + b == b;
    } else {
      assert (a + b)[1..] == a[1..] + b;
      EncodeToksAppend(a[1..], b);
      Assoc(EncodeTok(a[0]), EncodeToks(a[1..]), EncodeToks(b));
    }
  }

  lemma EncodeOne(t: Tok)
    ensures EncodeToks([t]) == EncodeTok(t)
  {
    assert [t][1..] == [];
    assert EncodeTok(t) + [] == EncodeTok(t);
  }

  /** What the sender writes for one file: its index, a header, the tokens, the end mark, and the MD4
      of the seed and the whole file. */
  function Reply(index: int32, seed: int32, h: SumHead, toks: seq<Tok>, file: bytes): bytes {
    Le32(index) + (EncodeHead(h) + (EncodeToks(toks) + (Le32(0) + MD4(Le32(seed) + file))))
  }

  // ---------- Replaying tokens ----------

  /** receiveData's reading of block i of its local file. */
  function ReadBlock(local: Option<bytes>, h: SumHead, i: nat): Result<bytes>
    requires InRange(h)
  {
    match local
    case None => Err(NoLocalFile)
    case Some(basis) =>
      var offset, n := i * h.blockLength, BlockLen(h, i);
      if 0 <= offset && offset + n <= |basis| then Ok(basis[offset..offset + n]) else Err(UnexpectedEOF)
  }

  /** receiveData's loop: the output it produces from a token stream, and what it leaves unread. */
  function ParseTokens(inp: bytes, local: Option<bytes>, h: SumHead): Result<(bytes, bytes)>
    requires InRange(h)
    decreases |inp|
  {
    var (token, r) :- ParseInt32(inp);
    if token == 0 then Ok(([], r))
    else if token > 0 then
      var (data, r') :- ParseBytes(r, token);
      var (out, rest) :- ParseTokens(r', local, h);
      Ok((data + out, rest))
    else
      var data :- ReadBlock(local, h, -(token + 1));
      var (out, rest) :- ParseTokens(r, local, h);
      Ok((data + out, rest))
  }

  /** A token the wire can carry, and the receiver can serve from a basis the header describes. */
  predicate Sendable(t: Tok, count: int) {
    match t
    case Lit(data) => 1 <= |data| < 0x8000_0000
    case Copy(i) => i < count
  }

  predicate AllSendable(toks: seq<Tok>, count: int) {
    forall k | 0 <= k < |toks| :: Sendable(toks[k], count)
  }

  /** Block i of the basis; a reference to no block stands for nothing. */
  ghost function BlockOrNone(h: SumHead, basis: bytes, i: nat): bytes
    requires Describes(h, |basis|)
  {
    if i < h.count then Block(h, basis, i) else []
  }

  /** What a list of tokens stands for. */
  ghost function Replay(toks: seq<Tok>, h: SumHead, basis: bytes): bytes
    requires Describes(h, |basis|)
  {
    if toks == [] then []
    else
      (match toks[0]
       case Lit(data) => data
       case Copy(i) => BlockOrNone(h, basis, i)) + Replay(toks[1..], h, basis)
  }

  ghost function PieceBytes(p: Piece, h: SumHead, basis: bytes): bytes
    requires Describes(h, |basis|)
  {
    match p
    case Byte(b) => [b]
    case Ref(i) => BlockOrNone(h, basis, i)
  }

  ghost function ReplayPieces(ps: seq<Piece>, h: SumHead, basis: bytes): bytes
    requires Describes(h, |basis|)
  {
    if ps == [] then [] else PieceBytes(ps[0], h, basis) + ReplayPieces(ps[1..], h, basis)
  }

  lemma ReplayCons(p: Piece, ps: seq<Piece>, h: SumHead, basis: bytes)
    requires Describes(h, |basis|)
    ensures ReplayPieces([p] + ps, h, basis) == PieceBytes(p, h, basis) + ReplayPieces(ps, h, basis)
  {
    assert ([p] + ps)[1..] == ps;
  }

  lemma {:induction false} ReplayPiecesAppend(a: seq<Piece>, b: seq<Piece>, h: SumHead, basis: bytes)
    requires Describes(h, |basis|)
    ensures ReplayPieces(a + b, h, basis) == ReplayPieces(a, h, basis) + ReplayPieces(b, h, basis)
  {
    if a == [] {
      assert a + b == b;
    } else {
      assert (a + b)[1..] == a[1..] + b;
      ReplayPiecesAppend(a[1..], b, h, basis);
      Assoc(PieceBytes(a[0], h, basis), ReplayPieces(a[1..], h, basis), ReplayPieces(b, h, basis));
    }
  }

  lemma {:induction false} ReplayLiteral(data: bytes, h: SumHead, basis: bytes)
    requires Describes(h, |basis|)
    ensures ReplayPieces(Pieces(data), h, basis) == data
  {
    if data != [] {
      ReplayLiteral(data[1..], h, basis);
      ReplayCons(Byte(data[0]), Pieces(data[1..]), h, basis);
    }
  }

  /** Token boundaries do not matter to the replay. */
  lemma {:induction false} ReplayFlattened(toks: seq<Tok>, h: SumHead, basis: bytes)
    requires Describes(h, |basis|)
    ensures Replay(toks, h, basis) == ReplayPieces(Flatten(toks), h, basis)
  {
    if toks != [] {
      ReplayFlattened(toks[1..], h, basis);
      match toks[0] {
        case Lit(data) => ReplayLiteral(data, h, basis);
        case Copy(i) => ReplayCons(Ref(i), [], h, basis); assert [Ref(i)] + [] == [Ref(i)];
      }
      ReplayPiecesAppend(TokPieces(toks[0]), Flatten(toks[1..]), h, basis);
    }
  }

  lemma ReadBlockIs(h: SumHead, basis: bytes, i: nat)
    requires Describes(h, |basis|) && i < h.count
    ensures ReadBlock(Some(basis), h, i) == Ok(Block(h, basis, i))
  {
    BlockFits(h, |basis|, i);
    OffIsProduct(h.blockLength, i);
  }

  lemma ParseTokensEnd(h: SumHead, local: Option<bytes>, rest: bytes)
    requires InRange(h)
    ensures ParseTokens(Le32(0) + rest, local, h) == Ok(([], rest))
  {
    ParseInt32RoundTrip(0, rest);
  }

  lemma ParseTokensLit(data: bytes, t: bytes, local: Option<bytes>, h: SumHead, out: bytes, rest: bytes)
    requires InRange(h) && 1 <= |data| < 0x8000_0000
    requires ParseTokens(t, local, h) == Ok((out, rest))
    ensures ParseTokens(Le32(|data|) + (data + t), local, h) == Ok((data + out, rest))
  {
    ParseInt32RoundTrip(|data|, data + t);
    ParseBytesRoundTrip(data, t);
  }

  lemma ParseTokensCopy(i: nat, t: bytes, local: Option<bytes>, h: SumHead, data: bytes, out: bytes, rest: bytes)
    requires InRange(h) && i < h.count && ReadBlock(local, h, i) == Ok(data)
    requires ParseTokens(t, local, h) == Ok((out, rest))
    ensures ParseTokens(Le32(-(i + 1)) + t, local, h) == Ok((data + out, rest))
  {
    ParseInt32RoundTrip(-(i + 1), t);
  }

  /** The receiver's loop undoes the encoding: it outputs the replay and stops right after the end mark. */
  lemma {:induction false} TokensRoundTrip(toks: seq<Tok>, h: SumHead, basis: bytes, rest: bytes)
    requires Describes(h, |basis|) && AllSendable(toks, h.count)
    ensures ParseTokens(EncodeToks(toks) + (Le32(0) + rest), Some(basis), h)
         == Ok((Replay(toks, h, basis), rest))
  {
    var end := Le32(0) + rest;
    if toks == [] {
      assert [] + end == end;
      ParseTokensEnd(h, Some(basis), rest);
    } else {
      var more := EncodeToks(toks[1..]);
      var out := Replay(toks[1..], h, basis);
      TokensRoundTrip(toks[1..], h, basis, rest);
      Assoc(EncodeTok(toks[0]), more, end);
      match toks[0] {
        case Lit(data) =>
          Assoc(Le32(|data|), data, more + end);
          ParseTokensLit(data, more + end, Some(basis), h, out, rest);
        case Copy(i) =>
          ReadBlockIs(h, basis, i);
          ParseTokensCopy(i, more + end, Some(basis), h, Block(h, basis, i), out, rest);
      }
    }
  }

  /** Literals need no local file. */
  lemma {:induction false} LiteralsRoundTrip(toks: seq<Tok>, local: Option<bytes>, h: SumHead, rest: bytes)
    requires InRange(h) && AllSendable(toks, 0)
    ensures ParseTokens(EncodeToks(toks) + (Le32(0) + rest), local, h) == Ok((Literals(toks), rest))
  {
    var end := Le32(0) + rest;
    if toks == [] {
      assert [] + end == end;
      ParseTokensEnd(h, local, rest);
    } else {
      var more := EncodeToks(toks[1..]);
      var data := toks[0].data;
      LiteralsRoundTrip(toks[1..], local, h, rest);
      Assoc(EncodeTok(toks[0]), more, end);
      Assoc(Le32(|data|), data, more + end);
      ParseTokensLit(data, more + end, local, h, Literals(toks[1..]), rest);
    }
  }

  lemma {:induction false} LiteralsAppend(toks: seq<Tok>, data: bytes)
    ensures Literals(toks + [Lit(data)]) == Literals(toks) + data
  {
    if toks == [] {
      assert [Lit(data)][1..] == [];
      assert data + [] == data && [] + data == data;
      assert [] + [Lit(data)] == [Lit(data)];
    } else {
      assert (toks + [Lit(data)])[1..] == toks[1..] + [Lit(data)];
      LiteralsAppend(toks[1..], data);
      Assoc(if toks[0].Lit? then toks[0].data else [], Literals(toks[1..]), data);
    }
  }

  function Literals(toks: seq<Tok>): bytes {
    if toks == [] then [] else (if toks[0].Lit? then toks[0].data else []) + Literals(toks[1..])
  }
}
