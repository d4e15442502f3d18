/** The signature search as a specification: a naive search that tries every block at every offset it
    visits, and the same search with the sender's backlog of unsent literals and its window requests.
    Both are driven by a plan, which says for each offset what a visit of it finds. */
module Search {
  import opened Bytes
  import opened SumHead
  import opened Tokens
  import opened MapStruct

  /** Whether the header is one that receiveSums returns for at least one block. */
  ghost predicate SumsOk(head: SumHead) {
    && 0 <= head.blockLength <= MAX_BLOCK_LEN
    && 0 <= head.checksumLength <= 16
    && |head.sums| == head.count >= 1
    && forall i | 0 <= i < |head.sums| :: SumOk(head, head.sums[i])
  }

  /** Only blocks of a header with block length 0 are empty. */
  predicate SumOk(head: SumHead, sb: SumBuf) {
    0 <= sb.len <= head.blockLength && (head.blockLength > 0 ==> sb.len > 0) && |sb.sum2| == 16
  }

  /** A header with blocks to search for. */
  ghost predicate HeadOk(head: SumHead) { SumsOk(head) && head.blockLength >= 1 }

  /** Whether a backlog of unsent literals is flushed. */
  predicate Flushing(head: SumHead, end: int, o: nat, lm: nat) {
    o - lm >= head.blockLength + CHUNK_SIZE && end - o > CHUNK_SIZE
  }

  /** What a match puts on the wire: the literals from lm to o and the reference to block i. */
  function MatchBytes(file: bytes, lm: nat, o: nat, i: nat): bytes
    requires lm <= o <= |file|
  {
    EncodeToks(Chunks(file, lm, o)) + Le32(-(i + 1))
  }

  /** How often the backlog is flushed when no block agrees anywhere, for a file of length n. */
  function FlushCount(n: nat, head: SumHead): nat
    requires |head.sums| >= 1
  {
    var end := n + 1 - head.sums[|head.sums| - 1].len;
    Max((end - head.blockLength - 1) / CHUNK_SIZE - 1, 0)
  }

  /** A file to send, the header to send it against, and for each offset the block that agrees there, if any. */
  datatype Plan = Plan(file: bytes, head: SumHead, picks: seq<Option<nat>>) {

    ghost predicate Ok() {
      HeadOk(head) && |picks| == |file| && forall o | 0 <= o < |file| :: PickOk(o)
    }

    /** A picked block is as long as the window at the offset. */
    predicate PickOk(o: nat)
      requires o < |picks| && o < |file|
    {
      picks[o].Some? ==> picks[o].value < |head.sums| && Len(picks[o].value) == K(o)
    }

    function Len(i: nat): int
      requires i < |head.sums|
    {
      head.sums[i].len
    }

    /** The offset from which on no block of the last block's length is left. */
    function End(): int
      requires |head.sums| >= 1
    {
      |file| + 1 - head.sums[|head.sums| - 1].len
    }

    /** The length of the window at an offset. */
    function K(o: nat): int { Min(head.blockLength, |file| - o) }

    lemma PickFits(o: nat)
      requires Ok() && o < |file| && picks[o].Some?
      ensures var i := picks[o].value;
        i < |head.sums| && Len(i) == K(o) && 1 <= Len(i) <= head.blockLength && o + Len(i) <= |file|
    {
      assert PickOk(o);
      assert SumOk(head, head.sums[picks[o].value]);
    }

    lemma LastFits()
      requires Ok()
      ensures |file| + 1 - head.blockLength <= End() <= |file|
    {
      assert SumOk(head, head.sums[|head.sums| - 1]);
    }

    // ---------- The naive search ----------

    /** What the naive search sends for a visit of o, and how far it moves. */
    function First(o: nat): Piece
      requires o < |file| && o < |picks|
    {
      match picks[o]
      case Some(i) => Ref(i)
      case None => Byte(file[o])
    }

    ghost function Next(o: nat): (o': nat)
      requires Ok() && o < |file|
      ensures o < o' <= |file|
    {
      match picks[o]
      case Some(i) => PickFits(o); o + Len(i)
      case None => o + 1
    }

    ghost function Naive(o: nat): seq<Piece>
      requires Ok() && o < |file|
      decreases |file| - o, 0
    {
      [First(o)] + NaiveRest(Next(o))
    }

    ghost function NaiveRest(o: nat): seq<Piece>
      requires Ok() && o <= |file|
      decreases |file| - o, 1
    {
      if o >= End() then Pieces(file[o..]) else Naive(o)
    }

    // ---------- The search with a backlog ----------

    /** Whether the unsent literals before o are flushed up to one block length before it. */
    predicate Flushes(o: nat, lm: nat)
      requires |head.sums| >= 1
    {
      Flushing(head, End(), o, lm)
    }

    function AfterFlush(o: nat, lm: nat): int
      requires |head.sums| >= 1
    {
      if Flushes(o, lm) then o - head.blockLength else lm
    }

    /** The tokens sent from a visit of o on, when the literals from lm on are still unsent. */
    ghost function Greedy(o: nat, lm: nat): seq<Tok>
      requires Ok() && lm <= o < |file|
      decreases |file| - o, 0
    {
      match picks[o]
      case Some(i) =>
        PickFits(o);
        Chunks(file, lm, o) + [Copy(i)] + GreedyRest(o + Len(i), o + Len(i))
      case None =>
        Chunks(file, lm, AfterFlush(o, lm)) + GreedyRest(o + 1, AfterFlush(o, lm))
    }

    ghost function GreedyRest(o: nat, lm: nat): seq<Tok>
      requires Ok() && lm <= o <= |file|
      decreases |file| - o, 1
    {
      if o >= End() then Chunks(file, lm, |file|) else Greedy(o, lm)
    }

    lemma FlattenStep(a: nat, b: nat, toks: seq<Tok>, ps: seq<Piece>)
      requires a <= b <= |file| && Flatten(toks) == ps
      ensures Flatten(Chunks(file, a, b) + toks) == Pieces(file[a..b]) + ps
    {
      ChunksFlatten(file, a, b);
      FlattenAppend(Chunks(file, a, b), toks);
    }

    lemma FileJoin(a: nat, b: nat, c: nat)
      requires a <= b <= c <= |file|
      ensures Pieces(file[a..b]) + Pieces(file[b..c]) == Pieces(file[a..c])
    {
      assert file[a..b] + file[b..c] == file[a..c];
      PiecesAppend(file[a..b], file[b..c]);
    }

    /** Flushing and chunking change nothing: up to token boundaries, the search with a backlog sends
        the unsent literals and then what the naive search sends. */
    lemma {:induction false} GreedyRefinesNaive(o: nat, lm: nat)
      requires Ok() && lm <= o < |file|
      ensures Flatten(Greedy(o, lm)) == Pieces(file[lm..o]) + Naive(o)
      decreases |file| - o, 0
    {
      match picks[o] {
        case Some(i) =>
          GreedyAtMatch(o, lm);
          GreedyRestRefinesNaive(Next(o), Next(o));
          MatchStep(lm, o, i, Next(o), GreedyRest(Next(o), Next(o)), NaiveRest(Next(o)));
        case None =>
          var lm' := AfterFlush(o, lm);
          GreedyAtLiteral(o, lm, lm');
          GreedyRestRefinesNaive(o + 1, lm');
          LiteralStep(lm, lm', o, GreedyRest(o + 1, lm'), NaiveRest(o + 1));
      }
    }

    lemma GreedyAtLiteral(o: nat, lm: nat, lm': int)
      requires Ok() && lm <= o < |file| && picks[o].None? && lm' == AfterFlush(o, lm)
      ensures lm <= lm' <= o
      ensures Greedy(o, lm) == Chunks(file, lm, lm') + GreedyRest(o + 1, lm')
      ensures Naive(o) == [Byte(file[o])] + NaiveRest(o + 1)
    {
    }

    lemma MatchStep(lm: nat, o: nat, i: nat, o': nat, toks: seq<Tok>, ps: seq<Piece>)
      requires lm <= o <= o' <= |file| && Flatten(toks) == Pieces(file[o'..o']) + ps
      ensures Flatten(Chunks(file, lm, o) + [Copy(i)] + toks) == Pieces(file[lm..o]) + ([Ref(i)] + ps)
    {
      assert Pieces(file[o'..o']) == [];
      NothingBefore(ps);
      var rest := [Copy(i)] + toks;
      assert rest[1..] == toks;
      Assoc(Chunks(file, lm, o), [Copy(i)], toks);
      FlattenStep(lm, o, rest, [Ref(i)] + ps);
    }

    lemma LiteralStep(lm: nat, lm': nat, o: nat, toks: seq<Tok>, ps: seq<Piece>)
      requires lm <= lm' <= o < |file| && Flatten(toks) == Pieces(file[lm'..o + 1]) + ps
      ensures Flatten(Chunks(file, lm, lm') + toks) == Pieces(file[lm..o]) + ([Byte(file[o])] + ps)
    {
      FlattenStep(lm, lm', toks, Pieces(file[lm'..o + 1]) + ps);
      SplitElsewhere(lm, lm', o, ps);
    }

    /** The literals up to and including o, cut before lm' or before o. */
    lemma SplitElsewhere(lm: nat, lm': nat, o: nat, ps: seq<Piece>)
      requires lm <= lm' <= o < |file|
      ensures Pieces(file[lm..lm']) + (Pieces(file[lm'..o + 1]) + ps) == Pieces(file[lm..o]) + ([Byte(file[o])] + ps)
    {
      FileJoin(lm, lm', o + 1);
      FileJoin(lm, o, o + 1);
      LastPiece(o);
      Regroup(Pieces(file[lm..lm']), Pieces(file[lm'..o + 1]), Pieces(file[lm..o]), [Byte(file[o])], ps);
    }

    lemma LastPiece(o: nat)
      requires o < |file|
      ensures Pieces(file[o..o + 1]) == [Byte(file[o])]
    {
      assert file[o..o + 1] == [file[o]];
    }

    lemma {:induction false} GreedyRestRefinesNaive(o: nat, lm: nat)
      requires Ok() && lm <= o <= |file|
      ensures Flatten(GreedyRest(o, lm)) == Pieces(file[lm..o]) + NaiveRest(o)
      decreases |file| - o, 1
    {
      if o >= End() {
        ChunksFlatten(file, lm, |file|);
        FileJoin(lm, o, |file|);
        assert file[o..] == file[o..|file|];
      } else {
        GreedyRefinesNaive(o, lm);
      }
    }

    // ---------- What the tokens rebuild ----------

    /** The picked blocks are, byte for byte, the windows they were picked for. */
    ghost predicate Faithful(basis: bytes)
      requires Ok() && Describes(head, |basis|)
    {
      forall o: nat | o < |file| && picks[o].Some? :: SameBytes(o, basis)
    }

    ghost predicate SameBytes(o: nat, basis: bytes)
      requires Ok() && Describes(head, |basis|) && o < |file| && picks[o].Some?
    {
      PickFits(o);
      file[o..o + K(o)] == Block(head, basis, picks[o].value)
    }

    lemma FileSplit(a: nat, b: nat)
      requires a <= b <= |file|
      ensures file[a..] == file[a..b] + file[b..]
    {
    }

    /** If the picks are faithful, replaying what the naive search sends from o on rebuilds the file from o on. */
    lemma {:induction false} NaiveRebuilds(basis: bytes, o: nat)
      requires Ok() && o < |file| && Describes(head, |basis|) && Faithful(basis)
      ensures ReplayPieces(Naive(o), head, basis) == file[o..]
      decreases |file| - o, 0
    {
      NaiveRestRebuilds(basis, Next(o));
      FirstIsWindow(basis, o);
      RebuildPiece(basis, First(o), o, Next(o), NaiveRest(Next(o)));
    }

    lemma FirstIsWindow(basis: bytes, o: nat)
      requires Ok() && o < |file| && Describes(head, |basis|) && Faithful(basis)
      ensures PieceBytes(First(o), head, basis) == file[o..Next(o)]
    {
      if picks[o].Some? {
        PickFits(o);
        assert SameBytes(o, basis);
      } else {
        assert file[o..o + 1] == [file[o]];
      }
    }

    lemma RebuildPiece(basis: bytes, p: Piece, o: nat, o': nat, ps: seq<Piece>)
      requires Ok() && o <= o' <= |file| && Describes(head, |basis|)
      requires PieceBytes(p, head, basis) == file[o..o']
      requires ReplayPieces(ps, head, basis) == file[o'..]
      ensures ReplayPieces([p] + ps, head, basis) == file[o..]
    {
      ReplayCons(p, ps, head, basis);
      FileSplit(o, o');
    }

    lemma {:induction false} NaiveRestRebuilds(basis: bytes, o: nat)
      requires Ok() && o <= |file| && Describes(head, |basis|) && Faithful(basis)
      ensures ReplayPieces(NaiveRest(o), head, basis) == file[o..]
      decreases |file| - o, 1
    {
      if o >= End() {
        ReplayLiteral(file[o..], head, basis);
      } else {
        NaiveRebuilds(basis, o);
      }
    }

    lemma {:induction false} ChunksSendable(a: nat, b: nat)
      requires a <= b <= |file|
      ensures AllSendable(Chunks(file, a, b), 0)
      decreases b - a
    {
      if a < b {
        ChunksSendable(Min(a + CHUNK_SIZE, b), b);
      }
    }

    /** Every token fits an int32 on the wire and names a block of the basis. */
    lemma {:induction false} GreedySendable(o: nat, lm: nat)
      requires Ok() && lm <= o < |file|
      ensures AllSendable(Greedy(o, lm), head.count)
      decreases |file| - o, 0
    {
      match picks[o] {
        case Some(i) =>
          PickFits(o);
          ChunksSendable(lm, o);
          GreedyRestSendable(o + Len(i), o + Len(i));
        case None =>
          ChunksSendable(lm, AfterFlush(o, lm));
          GreedyRestSendable(o + 1, AfterFlush(o, lm));
      }
    }

    lemma {:induction false} GreedyRestSendable(o: nat, lm: nat)
      requires Ok() && lm <= o <= |file|
      ensures AllSendable(GreedyRest(o, lm), head.count)
      decreases |file| - o, 1
    {
      if o >= End() {
        ChunksSendable(lm, |file|);
      } else {
        GreedySendable(o, lm);
      }
    }

    /** If the picks are faithful, the sender's tokens replay to the file. */
    lemma GreedyRebuilds(basis: bytes)
      requires file != [] && Ok() && Describes(head, |basis|) && Faithful(basis)
      ensures AllSendable(Greedy(0, 0), head.count)
      ensures Replay(Greedy(0, 0), head, basis) == file
    {
      GreedySendable(0, 0);
      GreedyRefinesNaive(0, 0);
      NaiveRebuilds(basis, 0);
      ReplayFlattened(Greedy(0, 0), head, basis);
      assert Pieces(file[0..0]) + Naive(0) == Naive(0);
      assert file[0..] == file;
    }

    // ---------- The window requests of the search ----------

    /** How far the rolling update at o looks ahead: the window and, if there is one, the byte after it. */
    function Ahead(o: nat): int { o + K(o) + (if o + K(o) < |file| then 1 else 0) }

    /** Whether every region that the rolling updates ask for, from a visit of o on, fits a window. */
    ghost predicate Servable(def: nat, o: nat, lm: nat)
      requires Ok() && lm <= o < |file|
      decreases |file| - o, 0
    {
      match picks[o]
      case Some(i) => PickFits(o); ServableRest(def, o + Len(i), o + Len(i))
      case None => Fits(|file|, def, lm, Ahead(o) - lm) && ServableRest(def, o + 1, AfterFlush(o, lm))
    }

    ghost predicate ServableRest(def: nat, o: nat, lm: nat)
      requires Ok() && lm <= o <= |file|
      decreases |file| - o, 1
    {
      o < End() ==> Servable(def, o, lm)
    }

    /** A file of whole kilobytes, or one no longer than the default window, is always served. */
    lemma {:induction false} ServableAlways(def: nat, o: nat, lm: nat)
      requires Ok() && lm <= o < |file|
      requires |file| % ALIGN_BOUNDARY == 0 || |file| <= def
      ensures Servable(def, o, lm)
      decreases |file| - o
    {
      match picks[o] {
        case Some(i) =>
          PickFits(o);
          if o + Len(i) < End() { ServableAlways(def, o + Len(i), o + Len(i)); }
        case None =>
          FitsAlways(|file|, def, lm, Ahead(o) - lm);
          if o + 1 < End() { ServableAlways(def, o + 1, AfterFlush(o, lm)); }
      }
    }

    // ---------- A search without a match ----------

    /** The visit that flushes for the j-th time; the j-th chunk is the last that is sent then. */
    function FlushAt(j: nat): nat
      requires head.blockLength >= 0
    {
      j * CHUNK_SIZE + head.blockLength
    }

    /** There are m flushes: the last one is far enough from the end, and one more would not be. */
    predicate FlushesAre(m: nat)
      requires |head.sums| >= 1 && head.blockLength >= 0
    {
      (m > 0 ==> End() > FlushAt(m) + CHUNK_SIZE) && End() <= FlushAt(m) + 2 * CHUNK_SIZE
    }

    lemma FlushCountIs()
      requires Ok()
      ensures FlushesAre(FlushCount(|file|, head))
    {
      var q := (End() - head.blockLength - 1) / CHUNK_SIZE;
      assert q * CHUNK_SIZE <= End() - head.blockLength - 1 < (q + 1) * CHUNK_SIZE;
    }

    /** What flush j has to send and the visit of it asks for, and what is left after the last flush. */
    ghost predicate FlushServed(def: nat, j: nat)
      requires head.blockLength >= 0 && j > 0 && FlushAt(j) <= |file|
    {
      var lm := (j - 1) * CHUNK_SIZE;
      Fits(|file|, def, lm, Ahead(FlushAt(j)) - lm)
    }

    ghost predicate RestServed(def: nat, m: nat)
      requires m * CHUNK_SIZE <= |file|
    {
      Fits(|file|, def, m * CHUNK_SIZE, |file| - m * CHUNK_SIZE)
    }

    lemma AheadIs(o: nat)
      requires o <= |file|
      ensures Ahead(o) == Min(o + head.blockLength + 1, |file|)
    {
    }

    /** No flush is harder to serve than a later one. */
    lemma EarlierFlushServed(def: nat, j: nat, m: nat)
      requires Ok() && 0 < j <= m && FlushAt(m) + CHUNK_SIZE < |file| && FlushServed(def, m)
      requires 3 * head.blockLength <= def
      ensures FlushServed(def, j)
    {
      AheadIs(FlushAt(j));
      AheadIs(FlushAt(m));
      EarlierFits(|file|, def, head.blockLength, j, m);
    }

    /** Up to a flush, the regions that are asked for only grow. */
    lemma BeforeFlush(def: nat, o: nat, j: nat)
      requires Ok() && 0 < j && (j - 1) * CHUNK_SIZE <= o <= FlushAt(j) <= |file| && FlushServed(def, j)
      ensures Fits(|file|, def, (j - 1) * CHUNK_SIZE, Ahead(o) - (j - 1) * CHUNK_SIZE)
    {
      var lm := (j - 1) * CHUNK_SIZE;
      AheadIs(o);
      AheadIs(FlushAt(j));
      if Ahead(o) > lm {
        FitsShrinks(|file|, def, lm, Ahead(FlushAt(j)) - lm, lm, Ahead(o) - lm);
      }
    }

    /** A visit before the last flush. */
    lemma EarlyVisit(def: nat, o: nat, j: nat, m: nat)
      requires Ok() && 3 * head.blockLength <= def && FlushAt(m) + CHUNK_SIZE < |file|
      requires j < m && j * CHUNK_SIZE <= o <= FlushAt(j + 1)
      ensures FlushServed(def, m) ==> Fits(|file|, def, j * CHUNK_SIZE, Ahead(o) - j * CHUNK_SIZE)
      ensures j + 1 == m && o == FlushAt(m) ==>
        (FlushServed(def, m) <==> Fits(|file|, def, j * CHUNK_SIZE, Ahead(o) - j * CHUNK_SIZE))
    {
      if FlushServed(def, m) {
        EarlierFlushServed(def, j + 1, m);
        BeforeFlush(def, o, j + 1);
      }
    }

    /** A visit after it; the last one asks for all that is left. */
    lemma LateVisit(def: nat, o: nat, m: nat)
      requires Ok() && m * CHUNK_SIZE <= o < |file|
      ensures RestServed(def, m) ==> Fits(|file|, def, m * CHUNK_SIZE, Ahead(o) - m * CHUNK_SIZE)
      ensures o + 1 >= End() ==>
        (RestServed(def, m) <==> Fits(|file|, def, m * CHUNK_SIZE, Ahead(o) - m * CHUNK_SIZE))
    {
      LastFits();
      AheadIs(o);
      var lm := m * CHUNK_SIZE;
      if RestServed(def, m) && Ahead(o) > lm {
        FitsShrinks(|file|, def, lm, |file| - lm, lm, Ahead(o) - lm);
      }
    }

    /** Where a search without a match is after j of m flushes. */
    ghost predicate AfterFlushes(o: nat, j: nat, m: nat)
      requires Ok()
    {
      && o < |file| && (o == 0 || o < End()) && j <= m && FlushesAre(m)
      && j * CHUNK_SIZE <= o && (j > 0 ==> FlushAt(j) < o) && (j < m ==> o <= FlushAt(j + 1))
    }

    /** The next flush is made when its place is reached, and no other. */
    lemma FlushesInTurn(o: nat, j: nat, m: nat)
      requires Ok() && AfterFlushes(o, j, m)
      ensures Flushes(o, j * CHUNK_SIZE) <==> j < m && o == FlushAt(j + 1)
      ensures AfterFlush(o, j * CHUNK_SIZE) == (if j < m && o == FlushAt(j + 1) then j + 1 else j) * CHUNK_SIZE
      ensures o + 1 < End() ==> AfterFlushes(o + 1, if j < m && o == FlushAt(j + 1) then j + 1 else j, m)
      ensures o + 1 >= End() ==> j == m
      ensures j < m ==> FlushAt(m) + CHUNK_SIZE < |file|
    {
      LastFits();
    }

    /** One visit of such a search. */
    lemma UnmatchedStep(def: nat, o: nat, j: nat, next: nat, m: nat)
      requires Ok() && AfterFlushes(o, j, m) && picks[o].None?
      requires next == if j < m && o == FlushAt(j + 1) then j + 1 else j
      ensures o + 1 < End() ==> AfterFlushes(o + 1, next, m)
      ensures Servable(def, o, j * CHUNK_SIZE) <==>
        && Fits(|file|, def, j * CHUNK_SIZE, Ahead(o) - j * CHUNK_SIZE)
        && (o + 1 < End() ==> Servable(def, o + 1, next * CHUNK_SIZE))
    {
      FlushesInTurn(o, j, m);
      ServableStep(def, o, j * CHUNK_SIZE);
    }

    /** When no block agrees anywhere, the search succeeds exactly when its last flush and what is left
        after it are served. */
    lemma {:induction false} UnmatchedServable(def: nat, o: nat, j: nat, m: nat)
      requires Ok() && AfterFlushes(o, j, m) && 3 * head.blockLength <= def
      requires forall o': nat | o' < |file| :: picks[o'].None?
      ensures m * CHUNK_SIZE <= |file| && (j < m ==> FlushAt(m) <= |file|)
      ensures Servable(def, o, j * CHUNK_SIZE) <==> RestServed(def, m) && (j < m ==> FlushServed(def, m))
      decreases |file| - o
    {
      var next := if j < m && o == FlushAt(j + 1) then j + 1 else j;
      FlushesInTurn(o, j, m);
      UnmatchedStep(def, o, j, next, m);
      if o + 1 < End() {
        UnmatchedServable(def, o + 1, next, m);
      }
      if j < m {
        EarlyVisit(def, o, j, m);
      } else {
        LateVisit(def, o, m);
      }
    }

    /** Which of several agreeing blocks is picked makes no difference to the windows. */
    lemma {:induction false} ServableTieFree(q: Plan, def: nat, o: nat, lm: nat)
      requires Ok() && q.Ok() && q.file == file && q.head == head && lm <= o < |file|
      requires forall o' | 0 <= o' < |file| :: picks[o'].Some? == q.picks[o'].Some?
      ensures Servable(def, o, lm) <==> q.Servable(def, o, lm)
      decreases |file| - o
    {
      SamePace(q, o, lm);
      ServableStep(def, o, lm);
      q.ServableStep(def, o, lm);
      if Next(o) < End() {
        ServableTieFree(q, def, Next(o), After(o, lm));
      }
    }

    lemma SamePace(q: Plan, o: nat, lm: nat)
      requires Ok() && q.Ok() && q.file == file && q.head == head && lm <= o < |file|
      requires picks[o].Some? == q.picks[o].Some?
      ensures Next(o) == q.Next(o) && After(o, lm) == q.After(o, lm)
    {
      assert PickOk(o) && q.PickOk(o);
    }

    // ---------- A file that is still the basis ----------

    /** The blocks of the header cut the file itself, and at the start of each some block is picked. */
    ghost predicate PicksEveryBlock()
      requires Ok()
    {
      && Describes(head, |file|)
      && Len(head.count - 1) == BlockLen(head, head.count - 1)
      && forall i: nat | i < head.count :: PicksBlock(i)
    }

    ghost predicate PicksBlock(i: nat)
      requires Ok()
    {
      Off(head.blockLength, i) < |file| && picks[Off(head.blockLength, i)].Some?
    }

    /** A search goes from block to block then: it sends a reference for each and nothing else, and asks for
        no region that a window could miss. */
    lemma {:induction false} BlockByBlock(def: nat, i: nat)
      requires Ok() && PicksEveryBlock() && i < head.count
      ensures var o := Off(head.blockLength, i);
        && o < |file| && |Greedy(o, o)| == head.count - i && OnlyCopies(Greedy(o, o)) && Servable(def, o, o)
      decreases head.count - i
    {
      var o := Off(head.blockLength, i);
      NextBlock(i);
      GreedyAtMatch(o, o);
      ServableStep(def, o, o);
      assert Chunks(file, o, o) == [];
      NothingBefore([Copy(picks[o].value)]);
      if i < head.count - 1 {
        BlockByBlock(def, i + 1);
      } else {
        NothingMore([Copy(picks[o].value)]);
      }
    }

    /** The window at a block is as long as the block, so whatever is picked there leads to the next one. */
    lemma NextBlock(i: nat)
      requires Ok() && PicksEveryBlock() && i < head.count
      ensures Off(head.blockLength, i) < |file| && picks[Off(head.blockLength, i)].Some?
      ensures Next(Off(head.blockLength, i)) == if i < head.count - 1 then Off(head.blockLength, i + 1) else |file|
      ensures i < head.count - 1 ==> Off(head.blockLength, i + 1) < End()
    {
      assert PicksBlock(i);
      BlockFits(head, |file|, i);
      PickFits(Off(head.blockLength, i));
      if i < head.count - 1 {
        OffMonotone(head.blockLength, i + 1, head.count - 1);
      }
    }

    // ---------- One visit ----------

    /** The end of what is sent after a visit of o. */
    ghost function After(o: nat, lm: nat): int
      requires Ok() && o < |file|
    {
      if picks[o].Some? then Next(o) else AfterFlush(o, lm)
    }

    /** The bytes a visit of o puts on the wire. */
    ghost function Sent(o: nat, lm: nat): bytes
      requires Ok() && lm <= o < |file|
    {
      match picks[o]
      case Some(i) => MatchBytes(file, lm, o, i)
      case None => EncodeToks(Chunks(file, lm, AfterFlush(o, lm)))
    }

    lemma SentStep(o: nat, lm: nat)
      requires Ok() && lm <= o < |file|
      ensures lm <= After(o, lm) <= Next(o)
      ensures EncodeToks(Greedy(o, lm)) == Sent(o, lm) + EncodeToks(GreedyRest(Next(o), After(o, lm)))
    {
      if picks[o].Some? {
        SentMatch(o, lm);
      } else {
        EncodeToksAppend(Chunks(file, lm, AfterFlush(o, lm)), GreedyRest(o + 1, AfterFlush(o, lm)));
      }
    }

    lemma SentMatch(o: nat, lm: nat)
      requires Ok() && lm <= o < |file| && picks[o].Some?
      ensures After(o, lm) == Next(o)
      ensures EncodeToks(Greedy(o, lm)) == Sent(o, lm) + EncodeToks(GreedyRest(Next(o), Next(o)))
    {
      GreedyAtMatch(o, lm);
      MatchEncoded(file, lm, o, picks[o].value, GreedyRest(Next(o), Next(o)));
    }

    lemma GreedyAtMatch(o: nat, lm: nat)
      requires Ok() && lm <= o < |file| && picks[o].Some?
      ensures After(o, lm) == Next(o)
      ensures Greedy(o, lm) == Chunks(file, lm, o) + [Copy(picks[o].value)] + GreedyRest(Next(o), Next(o))
      ensures Naive(o) == [Ref(picks[o].value)] + NaiveRest(Next(o))
    {
    }

    lemma ServableStep(def: nat, o: nat, lm: nat)
      requires Ok() && lm <= o < |file|
      ensures lm <= After(o, lm) <= Next(o)
      ensures Servable(def, o, lm) <==>
        (picks[o].None? ==> Fits(|file|, def, lm, Ahead(o) - lm)) && ServableRest(def, Next(o), After(o, lm))
    {
      if picks[o].Some? {
        PickFits(o);
      }
    }

    /** A flush moves the end of what is sent forward, not past o, and asks for no more than the visit did. */
    lemma FlushedFits(def: nat, o: nat, lm: nat)
      requires Ok() && lm <= o < |file| && picks[o].None?
      requires Fits(|file|, def, lm, Ahead(o) - lm)
      ensures var lm' := AfterFlush(o, lm);
        && lm <= lm' <= o
        && (lm < o ==> Fits(|file|, def, lm, o - lm))
        && Sent(o, lm) == EncodeToks(Chunks(file, lm, lm'))
        && Chunks(file, lm, lm) == []
    {
      if lm < o {
        FitsShrinks(|file|, def, lm, Ahead(o) - lm, lm, o - lm);
      }
    }

    // ---------- Invariants of the search loop ----------

    /** How many literals can be waiting when o is visited. */
    ghost predicate Bounded(o: nat, lm: nat)
      requires |head.sums| >= 1
    {
      lm <= o && o - lm <= head.blockLength + CHUNK_SIZE + Max(0, CHUNK_SIZE - (End() - o))
    }

    lemma BoundedStep(o: nat, lm: nat)
      requires Ok() && Bounded(o, lm)
      ensures lm <= AfterFlush(o, lm) <= o && Bounded(o + 1, AfterFlush(o, lm))
    {
    }

    /** The literals waiting at o and the window at o lie in a region that fits. */
    ghost predicate Covered(def: nat, o: nat, lm: nat)
      requires 0 <= head.blockLength
    {
      lm <= o <= |file| && (lm == o || Fits(|file|, def, lm, o + K(o) - lm))
    }

    lemma CoveredMatch(def: nat, o: nat, lm: nat, i: nat)
      requires Ok() && o < |file| && picks[o] == Some(i) && Covered(def, o, lm)
      requires head.blockLength + ALIGN_BOUNDARY <= def
      ensures i < |head.sums| && SumOk(head, head.sums[i]) && o + head.sums[i].len == Next(o)
      ensures Sent(o, lm) == MatchBytes(file, lm, o, i)
      ensures lm < Next(o) && Fits(|file|, def, lm, Next(o) - lm)
    {
      PickFits(o);
      assert Next(o) - lm == o + K(o) - lm;
      if lm == o {
        ShortFits(|file|, def, lm, Next(o) - lm);
      }
    }

    /** What the loop keeps from visit to visit. */
    ghost predicate Ready(def: nat, o: nat, lm: nat)
      requires Ok()
    {
      o < |file| && (o == 0 || o < End()) && Bounded(o, lm) && Covered(def, o, lm)
    }

    lemma ReadyStep(def: nat, o: nat, lm: nat)
      requires Ok() && Ready(def, o, lm) && head.blockLength + ALIGN_BOUNDARY <= def
      requires picks[o].None? ==> Fits(|file|, def, lm, Ahead(o) - lm)
      ensures var lm' := After(o, lm);
        && lm <= lm' <= Next(o)
        && (Next(o) < End() ==> Ready(def, Next(o), lm'))
        && (Next(o) >= End() && lm' < |file| ==> Fits(|file|, def, lm', |file| - lm'))
    {
      LastFits();
      if picks[o].Some? {
        PickFits(o);
        if Next(o) >= End() {
          ShortFits(|file|, def, Next(o), |file| - Next(o));
        }
      } else {
        CoveredStep(def, o, lm);
        BoundedStep(o, lm);
      }
    }

    lemma CoveredStep(def: nat, o: nat, lm: nat)
      requires Ok() && lm <= o < |file| && (o == 0 || o < End())
      requires Fits(|file|, def, lm, Ahead(o) - lm)
      ensures lm <= AfterFlush(o, lm) <= o
      ensures Covered(def, o + 1, AfterFlush(o, lm))
      ensures o + 1 >= End() ==> Fits(|file|, def, AfterFlush(o, lm), |file| - AfterFlush(o, lm))
    {
      var lm' := AfterFlush(o, lm);
      assert Ahead(o) == o + 1 + K(o + 1);
      FitsShrinks(|file|, def, lm, Ahead(o) - lm, lm', Ahead(o) - lm');
    }
  }

  /** How far the visit of flush m looks ahead, in a file of length n. */
  function FlushEnd(n: nat, blockLength: nat, m: nat): nat { Min(m * CHUNK_SIZE + 2 * blockLength + 1, n) }

  lemma EarlierFits(n: nat, def: nat, blockLength: nat, j: nat, m: nat)
    requires 0 < j <= m && m * CHUNK_SIZE + blockLength + CHUNK_SIZE < n && 3 * blockLength <= def
    requires Fits(n, def, (m - 1) * CHUNK_SIZE, FlushEnd(n, blockLength, m) - (m - 1) * CHUNK_SIZE)
    ensures Fits(n, def, (j - 1) * CHUNK_SIZE, FlushEnd(n, blockLength, j) - (j - 1) * CHUNK_SIZE)
  {
    FlushEndShifts(n, blockLength, j, m);
    FromChunk(n, def, j - 1, FlushEnd(n, blockLength, j));
    FromChunk(n, def, m - 1, FlushEnd(n, blockLength, m));
    AlignedMonotone(FlushEnd(n, blockLength, j), FlushEnd(n, blockLength, m));
  }

  lemma FlushEndShifts(n: nat, blockLength: nat, j: nat, m: nat)
    requires 0 < j <= m && m * CHUNK_SIZE + blockLength + CHUNK_SIZE < n
    ensures (j - 1) * CHUNK_SIZE <= FlushEnd(n, blockLength, j) <= FlushEnd(n, blockLength, m)
    ensures FlushEnd(n, blockLength, j) - (j - 1) * CHUNK_SIZE
         <= Max(FlushEnd(n, blockLength, m) - (m - 1) * CHUNK_SIZE, 3 * blockLength)
  {
  }

  /** Only blocks of 255 KiB to 256 KiB can fail in the middle: for all others a flush is always served. */
  lemma FlushFits(n: nat, def: nat, blockLength: nat, m: nat)
    requires m > 0 && m * CHUNK_SIZE + blockLength + CHUNK_SIZE < n && 3 * blockLength <= def
    requires blockLength + ALIGN_BOUNDARY <= CHUNK_SIZE || blockLength > CHUNK_SIZE
    ensures Fits(n, def, (m - 1) * CHUNK_SIZE, FlushEnd(n, blockLength, m) - (m - 1) * CHUNK_SIZE)
  {
    FromChunk(n, def, m - 1, FlushEnd(n, blockLength, m));
    AlignedLengthIs(FlushEnd(n, blockLength, m));
  }

  /** A chunk starts on an alignment boundary. */
  lemma FromChunk(n: nat, def: nat, c: nat, end: nat)
    requires c * CHUNK_SIZE <= end
    ensures Fits(n, def, c * CHUNK_SIZE, end - c * CHUNK_SIZE)
       <==> end - c * CHUNK_SIZE <= def || AlignedLength(end) <= n
  {
    FitsIs(n, def, c * CHUNK_SIZE, end - c * CHUNK_SIZE);
    assert c * CHUNK_SIZE == c * (CHUNK_SIZE / ALIGN_BOUNDARY) * ALIGN_BOUNDARY;
  }

  predicate OnlyCopies(toks: seq<Tok>) { forall k | 0 <= k < |toks| :: toks[k].Copy? }

  lemma Regroup<T>(a: seq<T>, b: seq<T>, c: seq<T>, d: seq<T>, rest: seq<T>)
    requires a + b == c + d
    ensures a + (b + rest) == c + (d + rest)
  {
    Assoc(a, b, rest);
    Assoc(c, d, rest);
  }

  /** The bytes of a match between the literals before it and the tokens after it. */
  lemma MatchEncoded(file: bytes, lm: nat, o: nat, i: nat, rest: seq<Tok>)
    requires lm <= o <= |file|
    ensures EncodeToks(Chunks(file, lm, o) + [Copy(i)] + rest) == MatchBytes(file, lm, o, i) + EncodeToks(rest)
  {
    var c := Copy(i);
    EncodeToksAppend(Chunks(file, lm, o) + [c], rest);
    EncodeToksAppend(Chunks(file, lm, o), [c]);
    EncodeOne(c);
  }
}
