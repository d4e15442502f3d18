/** rsynccommon.go and rsync/types.go: block geometry, and the block sums a receiver sends to
    describe the copy of a file it already has (its basis). */
module SumHead {
  import opened Bytes
  import opened Wire
  import opened Checksum
  import opened Files

  datatype SumBuf = SumBuf(offset: int64, len: int64, index: int32, sum1: uint32, sum2: bytes)

  datatype SumHead = SumHead(count: int32, blockLength: int32, checksumLength: int32, remainder: int32,
                             sums: seq<SumBuf>)

  const BLOCK_SIZE := 700
  const MAX_BLOCK_LEN := 0x2000_0000

  // ---------- Geometry ----------

  function Isqrt(n: nat): (r: nat)
    ensures r * r <= n < (r + 1) * (r + 1)
  {
    if n == 0 then 0
    else
      var r := Isqrt(n - 1);
      if (r + 1) * (r + 1) <= n then r + 1 else r
  }

  /** File lengths whose float64 square root, rounded up at worst, and whose block count fit an int32. */
  const MAX_FILE := 0x7FFF_FFFE * 0x7FFF_FFFE

  type FileLength = n: int | 0 <= n < MAX_FILE

  /** Below this length float64 arithmetic truncates to the exact root. */
  const EXACT_ROOT := 0x10_0000_0000_0000

  /** Truncating the float64 root: rounding can reach the next integer, but not pass it. */
  predicate RootOk(n: int, r: int) {
    0 <= n < MAX_FILE ==> Isqrt(n) <= r <= Isqrt(n) + (if n < EXACT_ROOT then 0 else 1)
  }

  function ExactRoot(n: int): int { if n < 0 then 0 else Isqrt(n) }

  type RootFunction = f: int -> int
    | forall n {:trigger ExactRoot(n)} :: RootOk(n, f(n))
    witness ExactRoot

  /** int32(math.Sqrt(float64(n))). Proofs know no more of it than `RootBounds`. */
  const Sqrt: RootFunction

  lemma RootBounds(n: FileLength)
    ensures Isqrt(n) <= Sqrt(n) <= Isqrt(n) + 1
    ensures n < EXACT_ROOT ==> Sqrt(n) == Isqrt(n)
    ensures Isqrt(n) < 0x7FFF_FFFE
  {
    assert ExactRoot(n) == Isqrt(n);
    SquareOfBig(Isqrt(n));
  }

  lemma SquareOfBig(r: nat)
    ensures r >= 0x7FFF_FFFE ==> r * r >= MAX_FILE
  {
    if r >= 0x7FFF_FFFE {
      SquareMonotone(0x7FFF_FFFE, r);
    }
  }

  lemma SquareMonotone(a: nat, b: nat)
    requires a <= b
    ensures a * a <= b * b
  {
    assert a * a <= a * b;
    assert a * b <= b * b;
  }

  function HeadFor(contentLen: FileLength, blockLength: int32): SumHead
    requires blockLength >= 1
  {
    SumHead(ToInt32((contentLen + (blockLength - 1)) / blockLength), blockLength, 16,
            ToInt32(contentLen % blockLength), [])
  }

  /** The block length is the square root of the file length, and at least 700. */
  function SumSizesSqroot(contentLen: FileLength): SumHead {
    RootBounds(contentLen);
    HeadFor(contentLen, Max(Sqrt(contentLen), BLOCK_SIZE))
  }

  /** A file whose geometry the peer accepts. */
  predicate Sized(n: nat) { n < MAX_FILE && Sqrt(n) <= MAX_BLOCK_LEN }

  /** The length of block i: only the last one may be shorter than the block length. */
  function BlockLen(h: SumHead, i: int): int {
    if i == h.count - 1 && h.remainder != 0 then h.remainder else h.blockLength
  }

  /** Where block i starts: `i * blockLength`, added up. */
  function Off(blockLength: nat, i: nat): nat {
    if i == 0 then 0 else Off(blockLength, i - 1) + blockLength
  }

  lemma {:induction false} OffIsProduct(b: nat, i: nat)
    ensures Off(b, i) == i * b
  {
    if i > 0 {
      OffIsProduct(b, i - 1);
      assert i * b == (i - 1) * b + b;
    }
  }

  lemma {:induction false} OffMonotone(b: nat, i: nat, j: nat)
    requires i <= j
    ensures Off(b, i) <= Off(b, j)
    ensures i < j ==> Off(b, i) + b <= Off(b, j)
  {
    if i < j {
      OffMonotone(b, i, j - 1);
    }
  }

  lemma MulSign(b: int, c: int)
    requires b >= 1
    ensures c >= 1 ==> b * c >= b
    ensures c <= -1 ==> b * c <= -b
    ensures c == 0 ==> b * c == 0
  {
  }

  lemma RemainderIs(n: int, b: int, q: int, r: int)
    requires 0 <= r < b && n == b * q + r
    ensures n / b == q && n % b == r
  {
    var p, s := n / b, n % b;
    MulSign(b, q - p);
    Distribute(b, q, p);
  }

  lemma Distribute(b: int, q: int, p: int)
    ensures b * (q - p) == b * q - b * p
  {
  }

  /** Rounded-up division, and the remainder that goes with it. */
  lemma DivUp(n: nat, b: nat) returns (c: nat)
    requires b >= 1
    ensures c == (n + (b - 1)) / b
    ensures c == 0 <==> n == 0
    ensures c > 0 ==> Off(b, c - 1) < n <= Off(b, c)
    ensures n % b == (if n == Off(b, c) then 0 else n - Off(b, c - 1))
  {
    var q, r := n / b, n % b;
    assert n == b * q + r;
    MulSign(b, q);
    c := if r == 0 then q else q + 1;
    OffIsProduct(b, q);
    assert b * q == q * b;
    if r == 0 {
      RemainderIs(n + (b - 1), b, q, b - 1);
    } else {
      assert b * (q + 1) == b * q + b;
      RemainderIs(n + (b - 1), b, q + 1, r - 1);
    }
  }

  /** Blocks of at least the root of n: there are at most two more of them than the root. */
  lemma CountBound(n: nat, s: nat, b: nat, c: nat)
    requires s <= b && n < (s + 1) * (s + 1) && (c > 0 ==> Off(b, c - 1) < n)
    ensures c <= s + 2
  {
    if s + 3 <= c {
      OffMonotone(b, s + 2, c - 1);
      OffIsProduct(b, s + 2);
      Square1(s, b);
      assert false;
    }
  }

  lemma Square1(s: nat, b: nat)
    requires s <= b
    ensures (s + 1) * (s + 1) <= (s + 2) * b + 1
  {
    assert (s + 2) * s <= (s + 2) * b;
  }

  ghost predicate Tiles(h: SumHead, n: nat) {
    && 0 <= h.count && 0 <= h.remainder < h.blockLength
    && (h.count == 0 <==> n == 0)
    && (h.count > 0 ==> Off(h.blockLength, h.count - 1) + BlockLen(h, h.count - 1) == n)
  }

  lemma HeadTiles(n: FileLength, b: int32)
    requires BLOCK_SIZE <= b && Isqrt(n) <= b
    ensures Tiles(HeadFor(n, b), n) && HeadFor(n, b).count <= Isqrt(n) + 2
  {
    RootBounds(n);
    var c := DivUp(n, b);
    CountBound(n, Isqrt(n), b, c);
    SmallInt32(c);
    SmallInt32(n % b);
    var h := HeadFor(n, b);
    assert h.count == c && h.remainder == n % b;
    if c > 0 {
      assert Off(b, c) == Off(b, c - 1) + b;
    }
  }

  /** The blocks of a file of length n cover it from end to end, in order and without overlap, and
      there are at most two more of them than the exact root, however the float64 root rounds. */
  lemma BlocksTile(n: FileLength)
    ensures var h := SumSizesSqroot(n);
      && BLOCK_SIZE <= h.blockLength && (h.blockLength <= MAX_BLOCK_LEN <==> Sized(n))
      && (Isqrt(n) >= 700 ==> Isqrt(n) <= h.blockLength <= Isqrt(n) + 1)
      && (n < 0x10_0000_0000_0000 ==> h.blockLength == if Isqrt(n) > 700 then Isqrt(n) else 700)
      && h.count <= Isqrt(n) + 2
      && Tiles(h, n)
  {
    RootBounds(n);
    HeadTiles(n, Max(Sqrt(n), BLOCK_SIZE));
  }

  // ---------- The header on the wire ----------

  function EncodeHead(h: SumHead): bytes {
    Le32(h.count) + Le32(h.blockLength) + Le32(h.checksumLength) + Le32(h.remainder)
  }

  /** SumHead.ReadFrom, with its checks in the order it makes them. */
  function ParseHead(inp: bytes): Result<(SumHead, bytes)> {
    var (count, r1) :- ParseInt32(inp);
    if count < 0 then Err(InvalidCount) else
    var (blockLength, r2) :- ParseInt32(r1);
    if blockLength < 0 || blockLength > MAX_BLOCK_LEN then Err(InvalidBlockLength) else
    var (checksumLength, r3) :- ParseInt32(r2);
    if checksumLength < 0 || checksumLength > 16 then Err(InvalidChecksumLength) else
    var (remainder, r4) :- ParseInt32(r3);
    if remainder < 0 || remainder > blockLength then Err(InvalidRemainder)
    else Ok((SumHead(count, blockLength, checksumLength, remainder, []), r4))
  }

  predicate InRange(h: SumHead) {
    && 0 <= h.count
    && 0 <= h.blockLength <= MAX_BLOCK_LEN
    && 0 <= h.checksumLength <= 16
    && 0 <= h.remainder <= h.blockLength
  }

  /** A header survives the wire exactly when its fields are in range. */
  lemma HeadRoundTrip(h: SumHead, rest: bytes)
    ensures ParseHead(EncodeHead(h) + rest).Ok? <==> InRange(h)
    ensures InRange(h) ==> ParseHead(EncodeHead(h) + rest) == Ok((h.(sums := []), rest))
  {
    var t3 := Le32(h.remainder) + rest;
    var t2 := Le32(h.checksumLength) + t3;
    var t1 := Le32(h.blockLength) + t2;
    assert EncodeHead(h) + rest == Le32(h.count) + t1;
    ParseInt32RoundTrip(h.count, t1);
    ParseInt32RoundTrip(h.blockLength, t2);
    ParseInt32RoundTrip(h.checksumLength, t3);
    ParseInt32RoundTrip(h.remainder, rest);
  }

  lemma LongBlocksRefused(h: SumHead, rest: bytes)
    requires h.count >= 0 && h.blockLength > MAX_BLOCK_LEN
    ensures ParseHead(EncodeHead(h) + rest) == Err(InvalidBlockLength)
  {
    var t2 := Le32(h.checksumLength) + (Le32(h.remainder) + rest);
    var t1 := Le32(h.blockLength) + t2;
    assert EncodeHead(h) + rest == Le32(h.count) + t1;
    ParseInt32RoundTrip(h.count, t1);
    ParseInt32RoundTrip(h.blockLength, t2);
  }

  /** The peer accepts the header of a file exactly when the truncated root is at most 2^29. That is so
      for every file shorter than 2^58 bytes, and for none of (2^29 + 1)^2 bytes or more; in between
      it depends on how the float64 root rounds. */
  lemma GeometryAccepted(n: FileLength, rest: bytes)
    ensures ParseHead(EncodeHead(SumSizesSqroot(n)) + rest).Ok? <==> Sized(n)
    ensures !Sized(n) ==> ParseHead(EncodeHead(SumSizesSqroot(n)) + rest) == Err(InvalidBlockLength)
    ensures n < MAX_BLOCK_LEN * MAX_BLOCK_LEN ==> Sized(n)
    ensures n >= (MAX_BLOCK_LEN + 1) * (MAX_BLOCK_LEN + 1) ==> !Sized(n)
  {
    RootBounds(n);
    BlocksTile(n);
    var h := SumSizesSqroot(n);
    HeadRoundTrip(h, rest);
    if !Sized(n) {
      LongBlocksRefused(h, rest);
    }
    if Isqrt(n) >= MAX_BLOCK_LEN {
      SquareMonotone(MAX_BLOCK_LEN, Isqrt(n));
    } else {
      SquareMonotone(Isqrt(n) + 1, MAX_BLOCK_LEN);
    }
    if Isqrt(n) <= MAX_BLOCK_LEN {
      SquareMonotone(Isqrt(n) + 1, MAX_BLOCK_LEN + 1);
    }
  }

  // ---------- The block sums on the wire ----------

  /** The header cuts a file of length n into blocks. */
  ghost predicate Cuts(h: SumHead, n: nat) {
    && 0 <= h.count && 0 <= h.remainder <= h.blockLength && h.checksumLength == 16
    && n < MAX_FILE
    && (h.count == 0 <==> n == 0)
    && (h.count > 0 ==> 1 <= h.blockLength && Off(h.blockLength, h.count - 1) + BlockLen(h, h.count - 1) == n)
  }

  /** It does, and the peer accepts it. */
  ghost predicate Describes(h: SumHead, n: nat) { Cuts(h, n) && h.blockLength <= MAX_BLOCK_LEN }

  lemma GeometryCuts(n: FileLength)
    ensures Cuts(SumSizesSqroot(n), n) && SumSizesSqroot(n).sums == []
  {
    BlocksTile(n);
  }

  lemma GeometryDescribes(n: FileLength)
    requires Sized(n)
    ensures Describes(SumSizesSqroot(n), n) && SumSizesSqroot(n).sums == []
  {
    BlocksTile(n);
  }

  /** Every block lies inside the file, right before the block that follows it. */
  lemma BlockFits(h: SumHead, n: nat, i: nat)
    requires Cuts(h, n) && i < h.count
    ensures 1 <= BlockLen(h, i) <= h.blockLength
    ensures Off(h.blockLength, i) + BlockLen(h, i) == if i == h.count - 1 then n else Off(h.blockLength, i + 1)
    ensures Off(h.blockLength, i) + BlockLen(h, i) <= n
  {
    if i < h.count - 1 {
      OffMonotone(h.blockLength, i, h.count - 1);
    }
  }

  /** Block i of a basis. */
  ghost function Block(h: SumHead, basis: bytes, i: nat): (b: bytes)
    requires Cuts(h, |basis|) && i < h.count
    ensures |b| == BlockLen(h, i) >= 1
  {
    BlockFits(h, |basis|, i);
    var o := Off(h.blockLength, i);
    basis[o..o + BlockLen(h, i)]
  }

  /** What the generator writes for the blocks from i on. */
  ghost function SumStream(seed: int32, h: SumHead, basis: bytes, i: nat): bytes
    requires Cuts(h, |basis|) && i <= h.count
    decreases h.count - i
  {
    if i == h.count then []
    else
      var b := Block(h, basis, i);
      Le32(Weak(b)) + StrongSum(seed, b) + SumStream(seed, h, basis, i + 1)
  }

  /** What the sender should know about block i. */
  ghost function SumOf(seed: int32, h: SumHead, basis: bytes, i: nat): SumBuf
    requires Describes(h, |basis|) && i < h.count
  {
    var b := Block(h, basis, i);
    BlockFits(h, |basis|, i);
    SumBuf(Off(h.blockLength, i), |b|, i, Weak(b), StrongSum(seed, b))
  }

  /** What it should know about the first n blocks. */
  ghost function SumsTo(seed: int32, h: SumHead, basis: bytes, n: nat): (s: seq<SumBuf>)
    requires Describes(h, |basis|) && n <= h.count
    ensures |s| == n
  {
    if n == 0 then [] else SumsTo(seed, h, basis, n - 1) + [SumOf(seed, h, basis, n - 1)]
  }

  ghost function Sums(seed: int32, h: SumHead, basis: bytes): (s: seq<SumBuf>)
    requires Describes(h, |basis|)
    ensures |s| == h.count
  {
    SumsTo(seed, h, basis, h.count)
  }

  lemma {:induction false} SumsToAt(seed: int32, h: SumHead, basis: bytes, n: nat, i: nat)
    requires Describes(h, |basis|) && i < n <= h.count
    ensures SumsTo(seed, h, basis, n)[i] == SumOf(seed, h, basis, i)
  {
    if i < n - 1 {
      SumsToAt(seed, h, basis, n - 1, i);
    }
  }

  /** `rsync.SumBuf.Sum2` is an array of 16 bytes of which the first `checksumLength` are filled. */
  function Pad16(b: bytes): (r: bytes)
    requires |b| <= 16
    ensures |r| == 16
  {
    b + seq(16 - |b|, _ => 0)
  }

  /** One round of the loop of receiveSums. */
  function ParseSum(inp: bytes, h: SumHead, i: nat, offset: nat): Result<(SumBuf, bytes)>
    requires InRange(h) && i < h.count && offset <= i * MAX_BLOCK_LEN
  {
    var (short, r1) :- ParseInt32(inp);
    var (sum2, r2) :- ParseBytes(r1, h.checksumLength);
    Ok((SumBuf(offset, BlockLen(h, i), i, ToUint32(short), Pad16(sum2)), r2))
  }

  function ParseSums(inp: bytes, h: SumHead, i: nat, offset: nat): Result<(seq<SumBuf>, bytes)>
    requires InRange(h) && i <= h.count && offset <= i * MAX_BLOCK_LEN
    decreases h.count - i
  {
    if i == h.count then Ok(([], inp))
    else
      var (sb, r) :- ParseSum(inp, h, i, offset);
      var (sums, r') :- ParseSums(r, h, i + 1, offset + sb.len);
      Ok(([sb] + sums, r'))
  }

  /** sender.go: receiveSums. */
  function ParseRequest(inp: bytes): Result<(SumHead, bytes)> {
    var (h, r) :- ParseHead(inp);
    var (sums, r') :- ParseSums(r, h, 0, 0);
    Ok((h.(sums := sums), r'))
  }

  lemma ParseWord(x: uint32, rest: bytes)
    ensures ParseInt32(Le32(x) + rest) == Ok((ToInt32(x), rest)) && ToUint32(ToInt32(x)) == x
  {
    WordRoundTrip(x);
    ToUint32OfInt32(x);
    assert (Le32(x) + rest)[..4] == Le32(x) && (Le32(x) + rest)[4..] == rest;
  }

  lemma ParseSumStep(inp: bytes, h: SumHead, i: nat, offset: nat, short: int32, r1: bytes, sum2: bytes, r2: bytes)
    requires InRange(h) && i < h.count && offset <= i * MAX_BLOCK_LEN
    requires ParseInt32(inp) == Ok((short, r1))
    requires ParseBytes(r1, h.checksumLength) == Ok((sum2, r2))
    ensures ParseSum(inp, h, i, offset) == Ok((SumBuf(offset, BlockLen(h, i), i, ToUint32(short), Pad16(sum2)), r2))
  {
  }

  lemma SumRoundTrip(seed: int32, h: SumHead, basis: bytes, i: nat, inp: bytes, rest: bytes)
    requires Describes(h, |basis|) && i < h.count
    requires Off(h.blockLength, i) <= i * MAX_BLOCK_LEN
    requires inp == Le32(Weak(Block(h, basis, i))) + StrongSum(seed, Block(h, basis, i)) + rest
    ensures ParseSum(inp, h, i, Off(h.blockLength, i)) == Ok((SumOf(seed, h, basis, i), rest))
  {
    var b := Block(h, basis, i);
    var c := StrongSum(seed, b);
    Assoc(Le32(Weak(b)), c, rest);
    ParseWord(Weak(b), c + rest);
    ParseBytesRoundTrip(c, rest);
    assert Pad16(c) == c;
    ParseSumStep(inp, h, i, Off(h.blockLength, i), ToInt32(Weak(b)), c + rest, c, rest);
  }

  lemma ParseSumsStep(inp: bytes, h: SumHead, i: nat, offset: nat, sb: SumBuf, t: bytes,
                      sums: seq<SumBuf>, rest: bytes)
    requires InRange(h) && i < h.count && offset <= i * MAX_BLOCK_LEN
    requires ParseSum(inp, h, i, offset) == Ok((sb, t))
    requires ParseSums(t, h, i + 1, offset + BlockLen(h, i)) == Ok((sums, rest))
    ensures ParseSums(inp, h, i, offset) == Ok(([sb] + sums, rest))
  {
  }

  lemma {:induction false} SumsRoundTrip(seed: int32, h: SumHead, basis: bytes, i: nat,
                                         offset: nat, rest: bytes)
    requires Describes(h, |basis|) && i <= h.count
    requires offset <= i * MAX_BLOCK_LEN && (i < h.count ==> offset == Off(h.blockLength, i))
    ensures ParseSums(SumStream(seed, h, basis, i) + rest, h, i, offset)
         == Ok((Sums(seed, h, basis)[i..], rest))
    decreases h.count - i
  {
    var all := Sums(seed, h, basis);
    if i == h.count {
      assert all[i..] == [];
      NothingBefore(rest);
    } else {
      NextSum(seed, h, basis, i);
      SumsRoundTrip(seed, h, basis, i + 1, offset + BlockLen(h, i), rest);
      OneSumRoundTrip(seed, h, basis, i, offset, SumStream(seed, h, basis, i + 1), all[i + 1..], rest);
    }
  }

  lemma NextSum(seed: int32, h: SumHead, basis: bytes, i: nat)
    requires Describes(h, |basis|) && i < h.count
    ensures Sums(seed, h, basis)[i..] == [SumOf(seed, h, basis, i)] + Sums(seed, h, basis)[i + 1..]
    ensures 1 <= BlockLen(h, i) <= MAX_BLOCK_LEN
    ensures i < h.count - 1 ==> Off(h.blockLength, i) + BlockLen(h, i) == Off(h.blockLength, i + 1)
  {
    SumsToAt(seed, h, basis, h.count, i);
    BlockFits(h, |basis|, i);
  }

  /** One block, in front of what the others are written and read as. */
  lemma OneSumRoundTrip(seed: int32, h: SumHead, basis: bytes, i: nat, offset: nat,
                        tail: bytes, sums: seq<SumBuf>, rest: bytes)
    requires Describes(h, |basis|) && i < h.count && offset == Off(h.blockLength, i) <= i * MAX_BLOCK_LEN
    requires 1 <= BlockLen(h, i) <= MAX_BLOCK_LEN
    requires ParseSums(tail + rest, h, i + 1, offset + BlockLen(h, i)) == Ok((sums, rest))
    ensures ParseSums((Le32(Weak(Block(h, basis, i))) + StrongSum(seed, Block(h, basis, i)) + tail) + rest,
                      h, i, offset)
         == Ok(([SumOf(seed, h, basis, i)] + sums, rest))
  {
    var b := Block(h, basis, i);
    var head := Le32(Weak(b)) + StrongSum(seed, b);
    Assoc(head, tail, rest);
    SumRoundTrip(seed, h, basis, i, head + (tail + rest), tail + rest);
    ParseSumsStep(head + (tail + rest), h, i, offset, SumOf(seed, h, basis, i), tail + rest, sums, rest);
  }

  /** What the generator writes for a basis. */
  ghost function Request(seed: int32, basis: bytes): bytes
    requires |basis| < MAX_FILE
  {
    GeometryCuts(|basis|);
    var h := SumSizesSqroot(|basis|);
    EncodeHead(h) + SumStream(seed, h, basis, 0)
  }

  /** What the sender has to learn from it: the header, and for each block its place, length and sums. */
  ghost function Signature(seed: int32, basis: bytes): SumHead
    requires Sized(|basis|)
  {
    GeometryDescribes(|basis|);
    var h := SumSizesSqroot(|basis|);
    h.(sums := Sums(seed, h, basis))
  }

  /** receiveSums takes exactly the generator's bytes off the stream and yields the signature. */
  lemma RequestRoundTrip(seed: int32, basis: bytes, rest: bytes)
    requires Sized(|basis|)
    ensures ParseRequest(Request(seed, basis) + rest) == Ok((Signature(seed, basis), rest))
  {
    GeometryDescribes(|basis|);
    DescribedRoundTrip(seed, SumSizesSqroot(|basis|), basis, rest);
  }

  lemma DescribedRoundTrip(seed: int32, h: SumHead, basis: bytes, rest: bytes)
    requires Describes(h, |basis|) && h.sums == []
    ensures ParseRequest(EncodeHead(h) + SumStream(seed, h, basis, 0) + rest)
         == Ok((h.(sums := Sums(seed, h, basis)), rest))
  {
    var s := SumStream(seed, h, basis, 0);
    Assoc(EncodeHead(h), s, rest);
    HeadRoundTrip(h, s + rest);
    SumsRoundTrip(seed, h, basis, 0, 0, rest);
    var all := Sums(seed, h, basis);
    assert all[0..] == all;
    ParseRequestStep(EncodeHead(h) + (s + rest), h, s + rest, all, rest);
  }

  lemma ParseRequestStep(inp: bytes, h: SumHead, t: bytes, sums: seq<SumBuf>, rest: bytes)
    requires InRange(h) && ParseHead(inp) == Ok((h, t)) && ParseSums(t, h, 0, 0) == Ok((sums, rest))
    ensures ParseRequest(inp) == Ok((h.(sums := sums), rest))
  {
  }

  /** Every parsed request has as many sums as its header says, with lengths from the header. */
  lemma {:induction false} ParsedSums(inp: bytes, h: SumHead, i: nat, offset: nat)
    requires InRange(h) && i <= h.count && offset <= i * MAX_BLOCK_LEN
    ensures var r := ParseSums(inp, h, i, offset);
      r.Ok? ==>
        && |r.value.0| == h.count - i
        && (forall j | 0 <= j < |r.value.0| :: r.value.0[j].len == BlockLen(h, i + j) && |r.value.0[j].sum2| == 16)
        && (forall j, b | 0 <= j < |r.value.0| && h.checksumLength <= b < 16 :: r.value.0[j].sum2[b] == 0)
    decreases h.count - i
  {
    if i < h.count {
      match ParseSum(inp, h, i, offset)
      case Err(_) =>
      case Ok((sb, t)) => ParsedSums(t, h, i + 1, offset + sb.len);
    }
  }

  // ---------- The methods ----------

  /** SumHead.WriteTo. */
  method WriteHead(h: SumHead, c: Conn)
    modifies c`wr, c`writes
    ensures c.wr == old(c.wr) + EncodeHead(h) && c.WroteShort()
  {
    var buf := Le32(h.count);
    buf := buf + Le32(h.blockLength);
    buf := buf + Le32(h.checksumLength);
    buf := buf + Le32(h.remainder);
    c.Write(buf);
  }

  /** SumHead.ReadFrom. */
  method ReadHead(c: Conn) returns (r: Result<SumHead>)
    modifies c`rd
    ensures match ParseHead(old(c.rd))
            case Ok((h, rest)) => r == Ok(h) && c.rd == rest && InRange(h)
            case Err(e) => r == Err(e)
  {
    var count :- c.ReadInt32();
    if count < 0 { return Err(InvalidCount); }
    var blockLength :- c.ReadInt32();
    if blockLength < 0 || blockLength > MAX_BLOCK_LEN { return Err(InvalidBlockLength); }
    var checksumLength :- c.ReadInt32();
    if checksumLength < 0 || checksumLength > 16 { return Err(InvalidChecksumLength); }
    var remainder :- c.ReadInt32();
    if remainder < 0 || remainder > blockLength { return Err(InvalidRemainder); }
    r := Ok(SumHead(count, blockLength, checksumLength, remainder, []));
  }

  method ReceiveSum(c: Conn, head: SumHead, i: nat, offset: nat) returns (r: Result<SumBuf>)
    requires InRange(head) && i < head.count && offset <= i * MAX_BLOCK_LEN
    modifies c`rd
    ensures match ParseSum(old(c.rd), head, i, offset)
            case Ok((sb, rest)) => r == Ok(sb) && c.rd == rest
            case Err(e) => r == Err(e)
  {
    var short :- c.ReadInt32();
    var len := if i == head.count - 1 && head.remainder != 0 then head.remainder else head.blockLength;
    var sum2 :- c.ReadFull(head.checksumLength);
    r := Ok(SumBuf(offset, len, i, ToUint32(short), Pad16(sum2)));
  }

  /** sender.go: receiveSums. */
  method ReceiveSums(c: Conn) returns (r: Result<SumHead>)
    modifies c`rd
    ensures match ParseRequest(old(c.rd))
            case Ok((h, rest)) => r == Ok(h) && c.rd == rest
            case Err(e) => r == Err(e)
  {
    var head :- ReadHead(c);
    var sums :- ReceiveSumList(c, head);
    r := Ok(head.(sums := sums));
  }

  /** The loop of receiveSums. */
  method ReceiveSumList(c: Conn, head: SumHead) returns (r: Result<seq<SumBuf>>)
    requires InRange(head)
    modifies c`rd
    ensures match ParseSums(old(c.rd), head, 0, 0)
            case Ok((sums, rest)) => r == Ok(sums) && c.rd == rest
            case Err(e) => r == Err(e)
  {
    ghost var after := c.rd;
    var sums: seq<SumBuf> := [];
    PrependStart(ParseSums(after, head, 0, 0));
    var offset: nat := 0;
    var i := 0;
    while i < head.count
      invariant 0 <= i <= head.count && offset <= i * MAX_BLOCK_LEN
      invariant ParseSums(after, head, 0, 0) == Prepend(sums, ParseSums(c.rd, head, i, offset))
    {
      ghost var before := c.rd;
      var sb :- ReceiveSum(c, head, i, offset);
      ParseSumsPrepend(before, head, i, offset);
      PrependStep(sums, sb, ParseSums(c.rd, head, i + 1, offset + sb.len));
      sums, offset, i := sums + [sb], offset + sb.len, i + 1;
    }
    NothingMore(sums);
    r := Ok(sums);
  }

  lemma ParseSumsPrepend(inp: bytes, h: SumHead, i: nat, offset: nat)
    requires InRange(h) && i < h.count && offset <= i * MAX_BLOCK_LEN
    ensures ParseSums(inp, h, i, offset)
         == match ParseSum(inp, h, i, offset)
            case Ok((sb, t)) => Prepend([sb], ParseSums(t, h, i + 1, offset + sb.len))
            case Err(e) => Err(e)
  {
  }

  method SendSum(seed: int32, c: Conn, b: bytes)
    modifies c`wr, c`writes
    ensures c.wr == old(c.wr) + (Le32(Weak(b)) + StrongSum(seed, b)) && c.WroteShort()
  {
    var sum1 := Checksum1(b);
    var sum2 := Checksum2(seed, b);
    c.WriteInt32(ToInt32(sum1));
    c.Write(sum2);
    Le32OfInt32(sum1);
    Assoc(old(c.wr), Le32(sum1), sum2);
  }

  lemma BlockOfPrefix(h: SumHead, data: bytes, n: nat, i: nat)
    requires n <= |data| && Cuts(h, n) && i < h.count
    ensures SliceAt(data, Off(h.blockLength, i), BlockLen(h, i)) == Ok(Block(h, data[..n], i))
  {
    BlockFits(h, n, i);
    var o := Off(h.blockLength, i);
    SliceOfPrefix(data, n, o, o + BlockLen(h, i));
  }

  /** The sums of the block read at its offset are the next of the stream. */
  lemma SumStreamStep(seed: int32, h: SumHead, data: bytes, n: nat, i: nat, b: bytes, wr: bytes, wr': bytes)
    requires n <= |data| && Cuts(h, n) && i < h.count
    requires SliceAt(data, Off(h.blockLength, i), BlockLen(h, i)) == Ok(b)
    requires wr' == wr + (Le32(Weak(b)) + StrongSum(seed, b))
    ensures wr' + SumStream(seed, h, data[..n], i + 1) == wr + SumStream(seed, h, data[..n], i)
  {
    BlockOfPrefix(h, data, n, i);
    Assoc(wr, Le32(Weak(b)) + StrongSum(seed, b), SumStream(seed, h, data[..n], i + 1));
  }

  /** generator.go: generateAndSendSums, on a freshly opened file whose length was reported as fileLen. */
  method GenerateAndSendSums(seed: int32, c: Conn, input: OsFile, fileLen: FileLength)
    returns (r: Result<()>)
    requires input.pos == 0
    modifies c`wr, c`writes, input`pos
    ensures c.WroteShort()
    ensures r.Ok? <==> fileLen <= |input.data|
    ensures r.Ok? ==> c.wr == old(c.wr) + Request(seed, input.data[..fileLen])
  {
    var sh := SumSizesSqroot(fileLen);
    GeometryCuts(fileLen);
    WriteHead(sh, c);
    r := SendSums(seed, c, input, fileLen, sh);
    if r.Ok? {
      Assoc(old(c.wr), EncodeHead(sh), SumStream(seed, sh, input.data[..fileLen], 0));
    }
  }

  /** One round of the loop: the sums of the next block, however many bytes are left. */
  method SendNext(seed: int32, c: Conn, input: OsFile, fileLen: FileLength, sh: SumHead, i: nat, remaining: nat)
    returns (r: Result<nat>)
    requires Cuts(sh, fileLen) && i < sh.count
    requires input.pos == Off(sh.blockLength, i) && input.pos + remaining == fileLen
    modifies c`wr, c`writes, input`pos
    ensures c.WroteShort()
    ensures r.Ok? <==> old(input.pos) + BlockLen(sh, i) <= |input.data|
    ensures r.Ok? ==> r.value == BlockLen(sh, i) && input.pos == old(input.pos) + r.value
    ensures r.Ok? && fileLen <= |input.data| ==>
      var basis := input.data[..fileLen];
      c.wr + SumStream(seed, sh, basis, i + 1) == old(c.wr) + SumStream(seed, sh, basis, i)
  {
    BlockFits(sh, fileLen, i);
    var n1 := Min(sh.blockLength, remaining);
    assert n1 == BlockLen(sh, i);
    var b :- input.ReadFull(n1);
    SendSum(seed, c, b);
    if fileLen <= |input.data| {
      SumStreamStep(seed, sh, input.data, fileLen, i, b, old(c.wr), c.wr);
    }
    r := Ok(n1);
  }

  method SendSums(seed: int32, c: Conn, input: OsFile, fileLen: FileLength, sh: SumHead)
    returns (r: Result<()>)
    requires Cuts(sh, fileLen) && input.pos == 0
    modifies c`wr, c`writes, input`pos
    ensures c.WroteShort()
    ensures r.Ok? <==> fileLen <= |input.data|
    ensures r.Ok? ==> c.wr == old(c.wr) + SumStream(seed, sh, input.data[..fileLen], 0)
  {
    ghost var data := input.data;
    var remaining: nat := fileLen;
    var i := 0;
    while i < sh.count
      invariant 0 <= i <= sh.count && input.pos + remaining == fileLen && c.WroteShort()
      invariant input.pos == if i < sh.count then Off(sh.blockLength, i) else fileLen
      invariant i > 0 ==> input.pos <= |data|
      invariant fileLen <= |data| ==>
        c.wr + SumStream(seed, sh, data[..fileLen], i) == old(c.wr) + SumStream(seed, sh, data[..fileLen], 0)
    {
      BlockFits(sh, fileLen, i);
      var n1 :- SendNext(seed, c, input, fileLen, sh, i, remaining);
      remaining := remaining - n1;
      i := i + 1;
    }
    NothingMore(c.wr);
    r := Ok(());
  }
}
