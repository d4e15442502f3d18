/** Where the search fails: exactly which files are not served when nothing matches, and one of them. */
module Unserved {
  import opened Bytes
  import opened Checksum
  import opened Rolling
  import opened MapStruct
  import opened SumHead
  import opened Tokens
  import opened Search
  import opened Matching
  import opened Sender
  import opened DeltaTransfer

  ghost predicate NothingAgrees(seed: int32, file: bytes, head: SumHead)
    requires HeadOk(head)
  {
    forall o: nat, i: nat | o < |file| :: !Agrees(seed, head, Window(file, head, o), i)
  }

  /** Whether the last flush of a search without a match is served, for m of them in a file of length n. */
  ghost predicate LastFlushServed(n: nat, blockLength: int32, m: nat)
    requires 1 <= blockLength <= MAX_BLOCK_LEN
  {
    m > 0 ==>
      var start := (m - 1) * CHUNK_SIZE;
      var ahead := FlushEnd(n, blockLength, m);
      start <= ahead && Fits(n, DefWindow(blockLength), start, ahead - start)
  }

  /** The plan of a file that shares nothing with the basis. */
  lemma NothingPicked(seed: int32, file: bytes, head: SumHead, ts: seq<Target>)
    requires HeadOk(head) && NothingAgrees(seed, file, head)
    ensures var p := PlanOf(seed, file, head, ts); p.Ok() && forall o: nat | o < |file| :: p.picks[o].None?
  {
    PlanIsOk(seed, file, head, ts);
    forall o | 0 <= o < |file| ensures PlanOf(seed, file, head, ts).picks[o].None? {
      FirstFromAgrees(seed, head, ts, Window(file, head, o), 0);
    }
  }

  lemma WindowOfBlocks(blockLength: int32)
    requires 1 <= blockLength <= MAX_BLOCK_LEN
    ensures 3 * blockLength <= DefWindow(blockLength)
  {
    AlignedLengthIs(RoundedTo(Max(3 * blockLength, 256 * 1024), blockLength));
  }

  /** A file that shares nothing with the basis, whatever its length, is served if and only if the last
      flush of its backlog is and what is left after m flushes is a whole number of kilobytes up to the end
      of the file or no longer than the default window. */
  lemma UnmatchedServed(seed: int32, file: bytes, head: SumHead, ts: seq<Target>)
    requires HeadOk(head) && file != [] && NothingAgrees(seed, file, head)
    ensures var n, m := |file|, FlushCount(|file|, head);
      Searchable(seed, file, head, ts) <==>
        && (n % ALIGN_BOUNDARY == 0 || n - m * CHUNK_SIZE <= DefWindow(head.blockLength))
        && LastFlushServed(n, head.blockLength, m)
  {
    NothingPicked(seed, file, head, ts);
    var p := PlanOf(seed, file, head, ts);
    var def, m := DefWindow(head.blockLength), FlushCount(|file|, head);
    WindowOfBlocks(head.blockLength);
    p.LastFits();
    p.FlushCountIs();
    p.UnmatchedServable(def, 0, 0, m);
    RestIs(|file|, def, m);
    if m > 0 {
      p.AheadIs(p.FlushAt(m));
    }
  }

  /** What is left is served when the whole file is whole kilobytes or it fits the default window. */
  lemma RestIs(n: nat, def: nat, m: nat)
    requires m * CHUNK_SIZE <= n
    ensures Fits(n, def, m * CHUNK_SIZE, n - m * CHUNK_SIZE) <==> n % ALIGN_BOUNDARY == 0 || n - m * CHUNK_SIZE <= def
  {
    FromChunk(n, def, m, n);
    AlignedLengthIs(n);
    if n % ALIGN_BOUNDARY == 0 {
      AlignedIs(n, 0);
    }
  }

  /** For blocks of at most 255 KiB, or of more than 256 KiB, the length alone of what is left decides. */
  lemma UnmatchedServedByRest(seed: int32, file: bytes, head: SumHead, ts: seq<Target>)
    requires HeadOk(head) && file != [] && NothingAgrees(seed, file, head)
    requires head.blockLength + ALIGN_BOUNDARY <= CHUNK_SIZE || head.blockLength > CHUNK_SIZE
    ensures Searchable(seed, file, head, ts) <==>
      |file| % ALIGN_BOUNDARY == 0 || |file| - FlushCount(|file|, head) * CHUNK_SIZE <= DefWindow(head.blockLength)
  {
    UnmatchedServed(seed, file, head, ts);
    FlushIsServed(|file|, head);
  }

  lemma FlushIsServed(n: nat, head: SumHead)
    requires HeadOk(head) && n > 0
    requires head.blockLength + ALIGN_BOUNDARY <= CHUNK_SIZE || head.blockLength > CHUNK_SIZE
    ensures LastFlushServed(n, head.blockLength, FlushCount(n, head))
  {
    var m, end := FlushCount(n, head), n + 1 - head.sums[|head.sums| - 1].len;
    assert SumOk(head, head.sums[|head.sums| - 1]);
    WindowOfBlocks(head.blockLength);
    if m > 0 {
      assert (m + 1) * CHUNK_SIZE <= end - head.blockLength - 1;
      FlushFits(n, DefWindow(head.blockLength), head.blockLength, m);
    }
  }

  /** In between, a flush can fail that what is left would not: with blocks of 256 KiB of which the last has
      one byte, in a file of 768 KiB and a byte. */
  lemma FlushCanFail(head: SumHead)
    requires |head.sums| >= 1 && head.blockLength == CHUNK_SIZE && head.sums[|head.sums| - 1].len == 1
    ensures var n := 3 * CHUNK_SIZE + 1;
      FlushCount(n, head) == 1 && n - CHUNK_SIZE <= DefWindow(CHUNK_SIZE) && !LastFlushServed(n, CHUNK_SIZE, 1)
  {
    var n := 3 * CHUNK_SIZE + 1;
    FitsIs(n, DefWindow(CHUNK_SIZE), 0, n);
  }

  ghost predicate Filled(w: bytes, b: byte) { forall k | 0 <= k < |w| :: w[k] == b }

  lemma {:induction false} Sum1OfConstant(w: bytes, b: byte)
    requires Filled(w, b)
    ensures Sum1(w) == |w| * Signed(b)
  {
    if w != [] {
      Sum1OfConstant(w[..|w| - 1], b);
    }
  }

  lemma IsqrtIs(n: nat, r: nat)
    requires r * r <= n < (r + 1) * (r + 1)
    ensures Isqrt(n) == r
  {
    var s := Isqrt(n);
    if s < r { SquareMonotone(s + 1, r); }
    if r < s { SquareMonotone(r + 1, s); }
  }

  lemma OnlyBlock(h: SumHead, basis: bytes)
    requires Describes(h, |basis|) && h.count == 1
    ensures Block(h, basis, 0) == basis
  {
    assert basis[0..|basis|] == basis;
  }

  /** The signature of a basis that is a single block. */
  lemma OneSum(seed: int32, basis: bytes)
    requires Sized(|basis|) && SumSizesSqroot(|basis|).count == 1
    ensures |Signature(seed, basis).sums| == 1 && Signature(seed, basis).sums[0].sum1 == Weak(basis)
  {
    var sh := Geometry(basis);
    SumsToAt(seed, sh, basis, sh.count, 0);
    OnlyBlock(sh, basis);
  }

  /** A basis of 700 ones has one block, of which no window of zeros has the weak sum. */
  lemma OneBlock(seed: int32, basis: bytes)
    requires |basis| == 700 && Filled(basis, 1)
    ensures Sized(|basis|)
    ensures var h := Signature(seed, basis);
      h.blockLength == 700 && |h.sums| == 1 && Low16(h.sums[0].sum1) != 0
  {
    IsqrtIs(|basis|, 26);
    RootBounds(|basis|);
    HeadOf700(|basis|);
    OneSum(seed, basis);
    Sum1OfConstant(basis, 1);
    Seeded(basis);
  }

  lemma HeadOf700(n: nat)
    requires n == 700 && Sqrt(n) == 26
    ensures Sized(n) && SumSizesSqroot(n).blockLength == 700
    ensures SumSizesSqroot(n).count == 1 && SumSizesSqroot(n).remainder == 0
  {
  }

  lemma DefaultWindow(b: int32)
    requires b == 700
    ensures DefWindow(b) == 263168
  {
  }

  /** 263169 zeros against a basis of 700 ones: the sender panics, whatever the seed. It is one byte
      more than the default window for blocks of 700 bytes, and no whole number of kilobytes. */
  lemma ZerosAgainstOnes(seed: int32, basis: bytes, file: bytes)
    requires |basis| == 700 && Filled(basis, 1) && |file| == 263169 && Filled(file, 0)
    ensures Sized(|basis|) && HeadOk(Signature(seed, basis)) && !Served(seed, file, Signature(seed, basis))
  {
    OneBlock(seed, basis);
    SignatureOk(seed, basis);
    var h := Signature(seed, basis);
    ZerosDisagree(seed, file, h);
    DefaultWindow(h.blockLength);
    forall ts | TargetsOk(h, ts) ensures !Searchable(seed, file, h, ts) {
      UnmatchedServedByRest(seed, file, h, ts);
    }
  }

  lemma ZerosDisagree(seed: int32, file: bytes, head: SumHead)
    requires HeadOk(head) && |head.sums| == 1 && Low16(head.sums[0].sum1) != 0 && Filled(file, 0)
    ensures NothingAgrees(seed, file, head)
  {
    forall o: nat, i: nat | o < |file| ensures !Agrees(seed, head, Window(file, head, o), i) {
      Sum1OfConstant(Window(file, head, o), 0);
      Seeded(Window(file, head, o));
    }
  }

  lemma PanickingTransfer(seed: int32)
    ensures var basis: bytes, file: bytes := seq(700, _ => 1), seq(263169, _ => 0);
      LocalOk(Some(basis)) && Panicking(seed, Some(basis), file)
  {
    var basis: bytes, file: bytes := seq(700, _ => 1), seq(263169, _ => 0);
    ZerosAgainstOnes(seed, basis, file);
  }
}
