/** rsyncsender/match.go and token.go: the signature search, which sends a file as tokens. */
module Sender {
  import opened Bytes
  import opened Wire
  import opened Checksum
  import opened Rolling
  import opened Files
  import opened MapStruct
  import opened SumHead
  import opened Tokens
  import opened Search
  import opened Matching

  /** What a token number puts on the wire after the literals: nothing for -2, the end mark for -1,
      a block reference otherwise. */
  function TokenMark(token: int32): bytes
    requires token >= -2
  {
    if token == -2 then [] else Le32(-(token + 1))
  }

  /** The default window of a file opened for a search with this block length. */
  function DefWindow(blockLength: int32): int
    requires 0 <= blockLength <= MAX_BLOCK_LEN
  {
    AlignedLength(RoundedTo(Max(3 * blockLength, 256 * 1024), blockLength))
  }

  lemma DefWindowBound(blockLength: int32)
    requires 0 <= blockLength <= MAX_BLOCK_LEN
    ensures RoundedTo(Max(3 * blockLength, 256 * 1024), blockLength) < 0x8000_0000
    ensures DefWindow(blockLength) >= CHUNK_SIZE
    ensures DefWindow(blockLength) >= blockLength + ALIGN_BOUNDARY
  {
    if blockLength > 0 {
      RemainderIs(3 * blockLength, blockLength, 3, 0);
    }
    AlignedLengthIs(RoundedTo(Max(3 * blockLength, 256 * 1024), blockLength));
  }

  /** Whether a file can be searched: neither it nor the blocks are empty, and every region that the search
      asks for fits a window. */
  ghost predicate Searchable(seed: int32, file: bytes, head: SumHead, ts: seq<Target>)
    requires SumsOk(head)
  {
    && head.blockLength >= 1 && file != []
    && (PlanIsOk(seed, file, head, ts);
        PlanOf(seed, file, head, ts).Servable(DefWindow(head.blockLength), 0, 0))
  }

  /** The tokens of a search. */
  ghost function SearchTokens(seed: int32, file: bytes, head: SumHead, ts: seq<Target>): seq<Tok>
    requires HeadOk(head) && file != []
  {
    PlanIsOk(seed, file, head, ts);
    PlanOf(seed, file, head, ts).Greedy(0, 0)
  }

  /** The search state for a window: its length and its rolled checksum. */
  ghost predicate At(p: Plan, o: nat, k: int, s1: uint16, s2: uint16)
    requires 0 <= p.head.blockLength
  {
    o <= |p.file| && k == p.K(o) && Rolled(s1, s2, Window(p.file, p.head, o))
  }

  /** How many literals can be waiting in a search with empty blocks. */
  ghost predicate Waiting(end: int, o: nat, lm: nat) {
    lm <= o && o - lm <= CHUNK_SIZE + Max(0, CHUNK_SIZE - (end - o))
  }

  class Transfer {
    const conn: Conn
    const seed: int32
    var lastMatch: nat

    constructor (conn: Conn, seed: int32)
      ensures this.conn == conn && this.seed == seed && lastMatch == 0
    {
      this.conn, this.seed, lastMatch := conn, seed, 0;
    }

    /** One literal token: its length and its bytes. */
    method SendChunk(ms: MapStruct, offset: nat, n1: int32, ghost from: nat, ghost next: nat)
      requires ms.Valid() && 0 < n1 <= CHUNK_SIZE && from == offset && next == offset + n1 <= ms.fileSize
      requires Fits(ms.fileSize, ms.defWindowSize, offset, n1)
      modifies conn`wr, conn`writes, ms, ms.window, ms.f`pos
      ensures conn.WroteShort()
      ensures ms.Valid() && ms.Kept()
      ensures conn.wr == old(conn.wr) + EncodeTok(Lit(ms.f.data[from..next]))
    {
      var chunk := ms.Ptr(offset, n1);
      conn.WriteInt32(n1);
      conn.Write(chunk.value);
      Assoc(old(conn.wr), Le32(n1), chunk.value);
    }

    method SendLiterals(ms: MapStruct, offset: nat, n: nat, ghost end: nat)
      requires ms.Valid() && end == offset + n <= ms.fileSize
      requires n > 0 ==> Fits(ms.fileSize, ms.defWindowSize, offset, n)
      modifies conn`wr, conn`writes, ms, ms.window, ms.f`pos
      ensures conn.WroteShort()
      ensures ms.Valid() && ms.Kept()
      ensures conn.wr == old(conn.wr) + EncodeToks(Chunks(ms.f.data, offset, end))
    {
      ghost var data := ms.f.data;
      ghost var from := offset;
      var l := 0;
      while l < n
        invariant 0 <= l <= n && from == offset + l
        invariant ms.Valid() && ms.Kept() && conn.WroteShort()
        invariant conn.wr + EncodeToks(Chunks(data, from, end)) == old(conn.wr) + EncodeToks(Chunks(data, offset, end))
      {
        var n1 := Min(CHUNK_SIZE, n - l);
        ghost var next := Min(from + CHUNK_SIZE, end);
        FitsShrinks(ms.fileSize, ms.defWindowSize, offset, n, from, n1);
        ghost var before := conn.wr;
        SendChunk(ms, offset + l, n1, from, next);
        ChunkSent(data, from, next, end, before, conn.wr);
        l, from := l + n1, next;
      }
      assert conn.wr + [] == conn.wr;
    }

    /** token.go: simpleSendToken. */
    method SimpleSendToken(ms: MapStruct, token: int32, offset: nat, n: nat, ghost end: nat)
      requires ms.Valid() && end == offset + n <= ms.fileSize && token >= -2
      requires n > 0 ==> Fits(ms.fileSize, ms.defWindowSize, offset, n)
      modifies conn`wr, conn`writes, ms, ms.window, ms.f`pos
      ensures conn.WroteShort()
      ensures ms.Valid() && ms.Kept()
      ensures conn.wr == old(conn.wr) + EncodeToks(Chunks(ms.f.data, offset, end)) + TokenMark(token)
    {
      if n > 0 {
        SendLiterals(ms, offset, n, end);
      } else {
        assert conn.wr + [] == conn.wr;
      }
      if token != -2 {
        conn.WriteInt32(-(token + 1));
      } else {
        assert conn.wr + [] == conn.wr;
      }
    }

    /** match.go: matched. The literals from lastMatch to offset go out, then the block reference or
        mark; the hash absorbs all that, the block included, and lastMatch moves past it. */
    method Matched(h: Hash, ms: MapStruct, head: SumHead, offset: nat, i: int32)
      requires SumsOk(head) && -2 <= i < |head.sums|
      requires ms.Valid() && lastMatch <= offset
      requires var e := offset + if i < 0 then 0 else head.sums[i].len;
        e <= ms.fileSize && (lastMatch < e ==> Fits(ms.fileSize, ms.defWindowSize, lastMatch, e - lastMatch))
      modifies this`lastMatch, conn`wr, conn`writes, h, ms, ms.window, ms.f`pos
      ensures conn.WroteShort()
      ensures ms.Valid() && ms.Kept()
      ensures lastMatch == offset + if i < 0 then 0 else head.sums[i].len
      ensures h.absorbed == old(h.absorbed) + ms.f.data[old(lastMatch)..lastMatch]
      ensures conn.wr == old(conn.wr) + EncodeToks(Chunks(ms.f.data, old(lastMatch), offset)) + TokenMark(i)
    {
      var n := offset - lastMatch;
      var transmitAccumulated := i < 0;
      if i >= 0 { assert SumOk(head, head.sums[i]); }
      ghost var e := offset + if i < 0 then 0 else head.sums[i].len;
      StartFits(ms.fileSize, ms.defWindowSize, lastMatch, offset, e);
      SimpleSendToken(ms, i, lastMatch, n, offset);
      if !transmitAccumulated {
        n := n + head.sums[i].len;
      }
      assert n == e - lastMatch;
      Absorb(h, ms, n, e);
      if !transmitAccumulated {
        lastMatch := offset + head.sums[i].len;
      } else {
        lastMatch := offset;
      }
    }

    /** The hash loop of matched, over n bytes from lastMatch on. */
    method Absorb(h: Hash, ms: MapStruct, n: nat, ghost end: nat)
      requires ms.Valid() && end == lastMatch + n <= ms.fileSize
      requires n > 0 ==> Fits(ms.fileSize, ms.defWindowSize, lastMatch, n)
      modifies h, ms, ms.window, ms.f`pos
      ensures ms.Valid() && ms.Kept()
      ensures h.absorbed == old(h.absorbed) + ms.f.data[lastMatch..end]
    {
      ghost var data := ms.f.data;
      var j := 0;
      ghost var done: nat := 0;
      while j < n
        invariant 0 <= j && done == Min(j, n)
        invariant ms.Valid() && ms.Kept()
        invariant h.absorbed == old(h.absorbed) + data[lastMatch..lastMatch + done]
      {
        var n1 := Min(CHUNK_SIZE, n - j);
        FitsShrinks(ms.fileSize, ms.defWindowSize, lastMatch, n, lastMatch + j, n1);
        var chunk := ms.Ptr(lastMatch + j, n1);
        SliceJoin(data, lastMatch, done, done + n1);
        Assoc(old(h.absorbed), data[lastMatch..lastMatch + done], chunk.value);
        h.Write(chunk.value);
        done := done + n1;
        j := j + CHUNK_SIZE;
      }
    }

    /** hashSearch's readChunk: the window at an offset and its checksum, computed from scratch. The offset
        is never before the file, but for empty blocks. */
    method ReadChunk(ms: MapStruct, head: SumHead, offset: int) returns (k: int, s1: uint16, s2: uint16)
      requires ms.Valid() && 0 <= head.blockLength <= MAX_BLOCK_LEN && offset <= ms.fileSize
      requires ms.defWindowSize >= head.blockLength + ALIGN_BOUNDARY
      requires 0 <= offset || head.blockLength == 0
      modifies ms, ms.window, ms.f`pos
      ensures ms.Valid() && ms.Kept() && k == Min(head.blockLength, ms.fileSize - offset)
      ensures 0 <= offset ==> Rolled(s1, s2, Window(ms.f.data, head, offset))
    {
      k := head.blockLength;
      var remaining := ms.fileSize - offset;
      if remaining < k {
        k := remaining;
      }
      if offset >= 0 { ShortFits(ms.fileSize, ms.defWindowSize, offset, k); }
      var chunk := ms.Ptr(offset, k);
      var sum := Checksum1(if chunk.Some? then chunk.value else []);
      s1 := sum % TWO_TO_THE_16;
      s2 := sum / TWO_TO_THE_16;
      if offset >= 0 { Seeded(Window(ms.f.data, head, offset)); }
    }

    /** One candidate of the scan: weak sum, length, and only then the strong sum, which is computed
        at most once for a window. */
    method Confirm(ms: MapStruct, head: SumHead, offset: nat, sum: uint32, i: int32, sum2: Option<bytes>,
                   ghost w: bytes)
      returns (hit: bool, sum2': Option<bytes>)
      requires ms.Valid() && SumsOk(head) && 0 <= i < |head.sums|
      requires offset <= |ms.f.data| && w == Window(ms.f.data, head, offset) && sum == Weak(w)
      requires ms.defWindowSize >= head.blockLength + ALIGN_BOUNDARY
      requires sum2.Some? ==> sum2.value == StrongSum(seed, w)
      modifies ms, ms.window, ms.f`pos
      ensures ms.Valid() && ms.Kept()
      ensures hit <==> Agrees(seed, head, w, i)
      ensures sum2'.Some? ==> sum2'.value == StrongSum(seed, w)
      ensures sum2.Some? ==> sum2' == sum2
    {
      assert SumOk(head, head.sums[i]);
      sum2' := sum2;
      if sum != head.sums[i].sum1 {
        return false, sum2';
      }
      var l := Min(head.blockLength, ms.fileSize - offset);
      if l != head.sums[i].len {
        return false, sum2';
      }
      if sum2'.None? {
        ShortFits(ms.fileSize, ms.defWindowSize, offset, l);
        var buf := ms.Ptr(offset, l);
        var sum := Checksum2(seed, if buf.Some? then buf.value else []);
        sum2' := Some(sum);
      }
      hit := sum2'.value[..head.checksumLength] == head.sums[i].sum2[..head.checksumLength];
    }

    /** hashSearch's scan of the targets with the window's tag. It finds what trying every block finds. */
    method FindMatch(ms: MapStruct, head: SumHead, targets: seq<Target>, tagTable: map<uint16, int>,
                     offset: nat, s1: uint16, s2: uint16, ghost w: bytes)
      returns (r: Option<nat>)
      requires ms.Valid() && SumsOk(head) && TargetsOk(head, targets) && TableOk(targets, tagTable)
      requires offset <= |ms.f.data| && w == Window(ms.f.data, head, offset) && Rolled(s1, s2, w)
      requires ms.defWindowSize >= head.blockLength + ALIGN_BOUNDARY
      modifies ms, ms.window, ms.f`pos
      ensures ms.Valid() && ms.Kept()
      ensures r == Choice(seed, head, targets, w)
    {
      var tag := Tag2(s1, s2);
      Seeded(w);
      ScanStarts(seed, head, targets, tagTable, w);
      if tag !in tagTable {
        return None;
      }
      r := Scan(ms, head, targets, offset, s1 + TWO_TO_THE_16 * s2, tag, tagTable[tag], w);
    }

    /** The scan from the first target with the tag on. */
    method Scan(ms: MapStruct, head: SumHead, targets: seq<Target>, offset: nat, sum: uint32, tag: uint16, first: nat,
                ghost w: bytes)
      returns (r: Option<nat>)
      requires ms.Valid() && SumsOk(head) && TargetsOk(head, targets)
      requires offset <= |ms.f.data| && w == Window(ms.f.data, head, offset) && sum == Weak(w) && tag == Tag(sum)
      requires first < |targets| && targets[first].tag == tag
      requires ms.defWindowSize >= head.blockLength + ALIGN_BOUNDARY
      modifies ms, ms.window, ms.f`pos
      ensures ms.Valid() && ms.Kept()
      ensures r == FirstFrom(seed, head, targets, w, first)
    {
      var j := first;
      var sum2: Option<bytes> := None;
      while j < head.count && targets[j].tag == tag
        invariant first <= j <= |targets|
        invariant ms.Valid() && ms.Kept()
        invariant sum2.Some? ==> sum2.value == StrongSum(seed, w)
        invariant FirstFrom(seed, head, targets, w, first) == FirstFrom(seed, head, targets, w, j)
        invariant j == first || targets[j - 1].tag == tag
      {
        var i := targets[j].index;
        assert TargetOk(head, targets[j]);
        var hit;
        hit, sum2 := Confirm(ms, head, offset, sum, i, sum2, w);
        if hit {
          return Some(i);
        }
        j := j + 1;
      }
      ScanEnds(seed, head, targets, w, j);
      return None;
    }

    /** hashSearch, lines 161-183: moves the window one byte on. It asks for everything from the first
        unsent literal to the byte after the window; when no window serves that, indexing the missing
        bytes panics. */
    method Slide(ms: MapStruct, offset: nat, k: int, s1: uint16, s2: uint16, ghost p: Plan)
      returns (r: Option<(int, uint16, uint16)>)
      requires ms.Valid() && p.Ok() && p.file == ms.f.data && At(p, offset, k, s1, s2)
      requires p.Ahead(offset) - Min(offset, lastMatch) < 0x8000_0000
      requires 1 <= k || p.file == []
      modifies ms, ms.window, ms.f`pos
      ensures ms.Kept() && (r.Some? ==> ms.Valid())
      ensures var start := Min(offset, lastMatch);
        r.Some? <==> p.file != [] && Fits(|p.file|, ms.defWindowSize, start, p.Ahead(offset) - start)
      ensures r.Some? ==> At(p, offset + 1, r.value.0, r.value.1, r.value.2)
    {
      var update := ReadUpdate(ms, offset, k);
      if update.None? {
        return None;
      }
      RollOn(p, offset, k, s1, s2);
      var k', s1', s2' := Roll(k, s1, s2, update.value.0, update.value.1);
      r := Some((k', s1', s2'));
    }

    /** The bytes of the update: the oldest of the window and the one after it, if there is one. There is no
        oldest byte before the file or at its end. */
    method ReadUpdate(ms: MapStruct, offset: int, k: nat) returns (r: Option<(byte, Option<byte>)>)
      requires ms.Valid() && -1 <= offset && offset + k <= ms.fileSize
      requires AheadOf(ms.fileSize, offset, k) - Min(offset, lastMatch) < 0x8000_0000
      modifies ms, ms.window, ms.f`pos
      ensures ms.Kept() && (r.Some? ==> ms.Valid())
      ensures var start, ahead := Min(offset, lastMatch), AheadOf(ms.fileSize, offset, k);
        r.Some? <==> 0 <= offset < ms.fileSize && Fits(ms.fileSize, ms.defWindowSize, start, ahead - start)
      ensures r.Some? ==> r.value == (ms.f.data[offset], Newest(ms.f.data, offset, k))
    {
      var backup := Max(offset - lastMatch, 0);
      var more := offset + k < ms.fileSize;
      var mmore := if more then 1 else 0;
      var region := ms.Ptr(offset - backup, k + mmore + backup);
      if region.None? {
        return None;
      }
      var update := region.value[backup..];
      if update == [] {
        return None;
      }
      RegionBytes(ms.f.data, offset, k, backup, mmore, region.value);
      r := Some((update[0], if more then Some(update[k]) else None));
    }

    /** Takes the oldest byte out of the rolled checksum and the newest one, if any, in. */
    method Roll(k: nat, s1: uint16, s2: uint16, oldest: byte, newest: Option<byte>)
      returns (k': int, s1': uint16, s2': uint16)
      ensures (k', s1', s2') == RolledOn(k, s1, s2, oldest, newest)
    {
      var t1 := Out1(s1, oldest);
      var t2 := Out2(s2, k, oldest);
      k' := k;
      if newest.Some? {
        t1 := ToUint32(t1 + SignExtend(newest.value));
        t2 := ToUint32(t2 + t1);
      } else {
        k' := k - 1;
      }
      s1', s2' := Low16(t1), Low16(t2);
    }

    /** The part of a visit that follows a match: the block reference goes out, and the search starts
        over one byte before the end of the block, because the slide that follows moves on by one. */
    method VisitMatch(h: Hash, ms: MapStruct, head: SumHead, end: int, offset: nat, i: nat, ghost p: Plan)
      returns (offset': nat, k: int, s1: uint16, s2: uint16)
      requires ms.Valid() && p.Ok() && p.file == ms.f.data && p.head == head && end == p.End()
      requires ms.defWindowSize >= head.blockLength + ALIGN_BOUNDARY
      requires offset < |p.file| && p.picks[offset] == Some(i) && p.Covered(ms.defWindowSize, offset, lastMatch)
      modifies this`lastMatch, conn`wr, conn`writes, h, ms, ms.window, ms.f`pos
      ensures conn.WroteShort()
      ensures ms.Valid() && ms.Kept()
      ensures offset' == lastMatch == p.Next(offset)
      ensures h.absorbed == old(h.absorbed) + p.file[old(lastMatch)..lastMatch]
      ensures conn.wr == old(conn.wr) + p.Sent(offset, old(lastMatch))
      ensures offset' < end ==> At(p, offset', k, s1, s2)
    {
      SendMatch(h, ms, head, offset, i, p);
      offset', k, s1, s2 := Restart(ms, head, end, offset + (head.sums[i].len - 1), p);
    }

    method SendMatch(h: Hash, ms: MapStruct, head: SumHead, offset: nat, i: nat, ghost p: Plan)
      requires ms.Valid() && p.Ok() && p.file == ms.f.data && p.head == head
      requires ms.defWindowSize >= head.blockLength + ALIGN_BOUNDARY
      requires offset < |p.file| && p.picks[offset] == Some(i) && p.Covered(ms.defWindowSize, offset, lastMatch)
      modifies this`lastMatch, conn`wr, conn`writes, h, ms, ms.window, ms.f`pos
      ensures conn.WroteShort()
      ensures ms.Valid() && ms.Kept() && i < |head.sums|
      ensures lastMatch == p.Next(offset) == offset + head.sums[i].len
      ensures h.absorbed == old(h.absorbed) + p.file[old(lastMatch)..lastMatch]
      ensures conn.wr == old(conn.wr) + p.Sent(offset, old(lastMatch))
    {
      p.CoveredMatch(ms.defWindowSize, offset, lastMatch, i);
      SendBlock(h, ms, head, offset, i);
    }

    /** matched with a block: the literals before it and its reference go out. */
    method SendBlock(h: Hash, ms: MapStruct, head: SumHead, offset: nat, i: nat)
      requires SumsOk(head) && i < |head.sums| && ms.Valid() && lastMatch <= offset
      requires var e := offset + head.sums[i].len;
        e <= ms.fileSize && (lastMatch < e ==> Fits(ms.fileSize, ms.defWindowSize, lastMatch, e - lastMatch))
      modifies this`lastMatch, conn`wr, conn`writes, h, ms, ms.window, ms.f`pos
      ensures conn.WroteShort()
      ensures ms.Valid() && ms.Kept() && lastMatch == offset + head.sums[i].len
      ensures h.absorbed == old(h.absorbed) + ms.f.data[old(lastMatch)..lastMatch]
      ensures conn.wr == old(conn.wr) + MatchBytes(ms.f.data, old(lastMatch), offset, i)
    {
      Matched(h, ms, head, offset, i);
      Assoc(old(conn.wr), EncodeToks(Chunks(ms.f.data, old(lastMatch), offset)), Le32(-(i + 1)));
    }

    /** hashSearch, lines 148-155, and the slide that follows them unless the end is reached. */
    method Restart(ms: MapStruct, head: SumHead, end: int, offset: nat, ghost p: Plan)
      returns (offset': nat, k: int, s1: uint16, s2: uint16)
      requires ms.Valid() && p.Ok() && p.file == ms.f.data && p.head == head && end == p.End()
      requires ms.defWindowSize >= head.blockLength + ALIGN_BOUNDARY
      requires offset < |p.file| && offset + 1 == lastMatch
      modifies ms, ms.window, ms.f`pos
      ensures ms.Valid() && ms.Kept()
      ensures offset' == lastMatch
      ensures offset' < end ==> At(p, offset', k, s1, s2)
    {
      k, s1, s2 := ReadChunk(ms, head, offset);
      if offset >= end {
        return offset + 1, k, s1, s2;
      }
      ShortFits(ms.fileSize, ms.defWindowSize, offset, p.Ahead(offset) - offset);
      var slid := Slide(ms, offset, k, s1, s2, p);
      k, s1, s2 := slid.value.0, slid.value.1, slid.value.2;
      offset' := offset + 1;
    }

    /** matched with token -2: only literals go out. */
    method SendUpTo(h: Hash, ms: MapStruct, head: SumHead, offset: nat)
      requires SumsOk(head) && ms.Valid() && lastMatch <= offset <= ms.fileSize
      requires lastMatch < offset ==> Fits(ms.fileSize, ms.defWindowSize, lastMatch, offset - lastMatch)
      modifies this`lastMatch, conn`wr, conn`writes, h, ms, ms.window, ms.f`pos
      ensures conn.WroteShort()
      ensures ms.Valid() && ms.Kept() && lastMatch == offset
      ensures h.absorbed == old(h.absorbed) + ms.f.data[old(lastMatch)..lastMatch]
      ensures conn.wr == old(conn.wr) + EncodeToks(Chunks(ms.f.data, old(lastMatch), offset))
    {
      Matched(h, ms, head, offset, -2);
      NothingMore(old(conn.wr) + EncodeToks(Chunks(ms.f.data, old(lastMatch), offset)));
    }

    /** hashSearch, lines 185-191: keeps the backlog short while the end of the file is far. */
    method Flush(h: Hash, ms: MapStruct, head: SumHead, end: int, offset: nat)
      requires SumsOk(head) && ms.Valid() && lastMatch <= offset <= ms.fileSize
      requires lastMatch < offset ==> Fits(ms.fileSize, ms.defWindowSize, lastMatch, offset - lastMatch)
      modifies this`lastMatch, conn`wr, conn`writes, h, ms, ms.window, ms.f`pos
      ensures conn.WroteShort()
      ensures ms.Kept() && ms.Valid()
      ensures lastMatch == (if Flushing(head, end, offset, old(lastMatch)) then offset - head.blockLength
                            else old(lastMatch))
      ensures old(lastMatch) <= lastMatch
      ensures h.absorbed == old(h.absorbed) + ms.f.data[old(lastMatch)..lastMatch]
      ensures conn.wr == old(conn.wr) + EncodeToks(Chunks(ms.f.data, old(lastMatch), lastMatch))
    {
      var backup := offset - lastMatch;
      if backup >= head.blockLength + CHUNK_SIZE && end - offset > CHUNK_SIZE {
        FitsShrinks(ms.fileSize, ms.defWindowSize, lastMatch, offset - lastMatch, lastMatch, backup - head.blockLength);
        SendUpTo(h, ms, head, offset - head.blockLength);
      } else {
        NothingMore(conn.wr);
        NothingMore(h.absorbed);
      }
    }

    /** The part of a visit that finds no match: the window slides, and a long backlog is flushed. */
    method VisitLiteral(h: Hash, ms: MapStruct, head: SumHead, end: int, offset: nat,
                        k: int, s1: uint16, s2: uint16, ghost p: Plan)
      returns (r: Result<(nat, int, uint16, uint16)>)
      requires ms.Valid() && p.Ok() && p.file == ms.f.data && p.head == head && end == p.End()
      requires if p.file == [] then offset == lastMatch == 0
               else offset < |p.file| && p.picks[offset] == None && (offset == 0 || offset < end)
                    && p.Bounded(offset, lastMatch)
      requires At(p, offset, k, s1, s2)
      modifies this`lastMatch, conn`wr, conn`writes, h, ms, ms.window, ms.f`pos
      ensures conn.WroteShort()
      ensures ms.Kept() && (r.Ok? ==> ms.Valid())
      ensures r.Ok? <==>
        p.file != [] && Fits(|p.file|, old(ms.defWindowSize), old(lastMatch), p.Ahead(offset) - old(lastMatch))
      ensures r.Err? ==> r.error == Panic
      ensures r.Ok? ==> r.value.0 == offset + 1 && lastMatch == p.AfterFlush(offset, old(lastMatch))
      ensures r.Ok? ==> old(lastMatch) <= lastMatch <= |p.file|
      ensures r.Ok? ==> h.absorbed == old(h.absorbed) + p.file[old(lastMatch)..lastMatch]
      ensures r.Ok? ==> conn.wr == old(conn.wr) + p.Sent(offset, old(lastMatch))
      ensures r.Ok? ==> At(p, offset + 1, r.value.1, r.value.2, r.value.3)
    {
      var slid := Slide(ms, offset, k, s1, s2, p);
      if slid.None? {
        return Err(Panic);
      }
      p.FlushedFits(ms.defWindowSize, offset, lastMatch);
      Flush(h, ms, head, end, offset);
      r := Ok((offset + 1, slid.value.0, slid.value.1, slid.value.2));
    }

    /** The match that the plan picks for an offset; in an empty file there is none. */
    method FindPick(ms: MapStruct, head: SumHead, targets: seq<Target>, tagTable: map<uint16, int>,
                    offset: nat, s1: uint16, s2: uint16, ghost p: Plan)
      returns (i: Option<nat>)
      requires TargetsOk(head, targets) && TableOk(targets, tagTable)
      requires p.Ok() && p.file == ms.f.data && p.head == head
      requires forall o | 0 <= o < |p.file| :: p.picks[o] == Choice(seed, head, targets, Window(p.file, head, o))
      requires ms.Valid() && ms.defWindowSize >= head.blockLength + ALIGN_BOUNDARY
      requires (if p.file == [] then offset == 0 else offset < |p.file|)
               && Rolled(s1, s2, Window(p.file, head, offset))
      modifies ms, ms.window, ms.f`pos
      ensures ms.Valid() && ms.Kept()
      ensures i == if p.file == [] then None else p.picks[offset]
    {
      i := FindMatch(ms, head, targets, tagTable, offset, s1, s2, Window(p.file, head, offset));
      if p.file == [] {
        EmptyWindow(seed, head, targets);
      }
    }

    /** One round of hashSearch's outer loop. */
    method Visit(h: Hash, ms: MapStruct, head: SumHead, targets: seq<Target>, tagTable: map<uint16, int>,
                 end: int, offset: nat, k: int, s1: uint16, s2: uint16, ghost p: Plan)
      returns (r: Result<(nat, int, uint16, uint16)>)
      requires TargetsOk(head, targets) && TableOk(targets, tagTable)
      requires p.Ok() && p.file == ms.f.data && p.head == head && end == p.End()
      requires forall o | 0 <= o < |p.file| :: p.picks[o] == Choice(seed, head, targets, Window(p.file, head, o))
      requires ms.Valid() && ms.defWindowSize >= head.blockLength + ALIGN_BOUNDARY
      requires if p.file == [] then offset == lastMatch == 0
               else offset < |p.file| && (offset == 0 || offset < end)
                    && p.Bounded(offset, lastMatch) && p.Covered(ms.defWindowSize, offset, lastMatch)
      requires At(p, offset, k, s1, s2)
      modifies this`lastMatch, conn`wr, conn`writes, h, ms, ms.window, ms.f`pos
      ensures conn.WroteShort()
      ensures ms.Kept() && (r.Ok? ==> ms.Valid())
      ensures r.Err? <==>
        p.file == []
        || (p.picks[offset] == None
            && !Fits(|p.file|, old(ms.defWindowSize), old(lastMatch), p.Ahead(offset) - old(lastMatch)))
      ensures r.Err? ==> r.error == Panic
      ensures r.Ok? ==> r.value.0 == p.Next(offset) && lastMatch == p.After(offset, old(lastMatch))
      ensures r.Ok? ==> old(lastMatch) <= lastMatch <= |p.file|
      ensures r.Ok? ==> h.absorbed == old(h.absorbed) + p.file[old(lastMatch)..lastMatch]
      ensures r.Ok? ==> conn.wr == old(conn.wr) + p.Sent(offset, old(lastMatch))
      ensures r.Ok? && r.value.0 < end ==> At(p, r.value.0, r.value.1, r.value.2, r.value.3)
    {
      var i := FindPick(ms, head, targets, tagTable, offset, s1, s2, p);
      if i.Some? {
        var o, k', s1', s2' := VisitMatch(h, ms, head, end, offset, i.value, p);
        return Ok((o, k', s1', s2'));
      }
      r := VisitLiteral(h, ms, head, end, offset, k, s1, s2, p);
    }

    /** One round of the outer loop where the blocks are empty, and so is every window. A block that agrees with
        it does so at the start of the file, and then the update would start before that. */
    method VisitEmpty(h: Hash, ms: MapStruct, head: SumHead, targets: seq<Target>, tagTable: map<uint16, int>,
                      end: int, offset: nat, k: nat, s1: uint16, s2: uint16)
      returns (r: Result<(int, uint16, uint16)>)
      requires SumsOk(head) && head.blockLength == 0 && TargetsOk(head, targets) && TableOk(targets, tagTable)
      requires ms.Valid() && ms.defWindowSize >= ALIGN_BOUNDARY && end == ms.fileSize + 1
      requires offset <= ms.fileSize && k == 0 && Rolled(s1, s2, []) && Waiting(end, offset, lastMatch)
      requires offset > 0 ==> Choice(seed, head, targets, []) == None
      modifies this`lastMatch, conn`wr, conn`writes, h, ms, ms.window, ms.f`pos
      ensures conn.WroteShort()
      ensures ms.Kept() && (r.Ok? ==> ms.Valid())
      ensures r.Err? ==> r.error == Panic
      ensures r.Ok? <==>
        && Choice(seed, head, targets, []) == None && offset < ms.fileSize
        && Fits(ms.fileSize, ms.defWindowSize, old(lastMatch), offset + 1 - old(lastMatch))
      ensures r.Ok? ==> r.value.0 == 0 && Rolled(r.value.1, r.value.2, []) && Waiting(end, offset + 1, lastMatch)
    {
      var i := FindMatch(ms, head, targets, tagTable, offset, s1, s2, []);
      if i.Some? {
        FirstFromAgrees(seed, head, targets, [], 0);
        RestartEmpty(h, ms, head, end, i.value);
        return Err(Panic);
      }
      var slid := SlideEmpty(ms, offset, k, s1, s2);
      if slid.None? {
        return Err(Panic);
      }
      StartFits(ms.fileSize, ms.defWindowSize, lastMatch, offset, offset + 1);
      Flush(h, ms, head, end, offset);
      r := Ok(slid.value);
    }

    /** The slide of an empty window: one byte goes in and out. */
    method SlideEmpty(ms: MapStruct, offset: nat, k: nat, s1: uint16, s2: uint16)
      returns (r: Option<(int, uint16, uint16)>)
      requires ms.Valid() && offset <= ms.fileSize && k == 0 && Rolled(s1, s2, [])
      requires lastMatch <= offset && offset + 1 - lastMatch < 0x8000_0000
      modifies ms, ms.window, ms.f`pos
      ensures ms.Kept() && (r.Some? ==> ms.Valid())
      ensures r.Some? <==>
        offset < ms.fileSize && Fits(ms.fileSize, ms.defWindowSize, lastMatch, offset + 1 - lastMatch)
      ensures r.Some? ==> r.value.0 == 0 && Rolled(r.value.1, r.value.2, [])
    {
      var update := ReadUpdate(ms, offset, k);
      if update.None? {
        return None;
      }
      RollEmpty(s1, s2, update.value.0);
      var k', s1', s2' := Roll(k, s1, s2, update.value.0, update.value.1);
      r := Some((k', s1', s2'));
    }

    /** A match with an empty block: the search would start over before the file, where no byte is. */
    method RestartEmpty(h: Hash, ms: MapStruct, head: SumHead, end: int, i: nat)
      requires SumsOk(head) && head.blockLength == 0 && i < |head.sums| && ms.Valid() && lastMatch == 0
      requires ms.defWindowSize >= ALIGN_BOUNDARY && end == ms.fileSize + 1
      modifies this`lastMatch, conn`wr, conn`writes, h, ms, ms.window, ms.f`pos
      ensures conn.WroteShort() && ms.Kept()
    {
      assert SumOk(head, head.sums[i]);
      SendBlock(h, ms, head, 0, i);
      var offset := 0 + (head.sums[i].len - 1);
      var k, s1, s2 := ReadChunk(ms, head, offset);
      assert offset < end;
      var update := ReadUpdate(ms, offset, k);
      assert update.None?;
    }

    /** hashSearch's outer loop where the blocks are empty. No generator asks for that, but receiveSums accepts
        it. The loop never comes to its end: no byte is left to roll on from at the end of the file. */
    method SearchEmpty(h: Hash, ms: MapStruct, head: SumHead, targets: seq<Target>, tagTable: map<uint16, int>)
      requires SumsOk(head) && head.blockLength == 0 && TargetsOk(head, targets) && TableOk(targets, tagTable)
      requires ms.Valid() && ms.defWindowSize >= ALIGN_BOUNDARY && lastMatch == 0
      modifies this`lastMatch, conn`wr, conn`writes, h, ms, ms.window, ms.f`pos
      ensures conn.WroteShort() && ms.Kept()
    {
      assert SumOk(head, head.sums[|head.sums| - 1]);
      var end := ms.fileSize + 1 - head.sums[|head.sums| - 1].len;
      var offset := 0;
      var k, s1, s2 := ReadChunk(ms, head, offset);
      while true
        invariant ms.Valid() && ms.Kept() && conn.WroteShort()
        invariant offset <= ms.fileSize && k == 0 && Rolled(s1, s2, []) && Waiting(end, offset, lastMatch)
        invariant offset > 0 ==> Choice(seed, head, targets, []) == None
        decreases end - offset
      {
        var round := VisitEmpty(h, ms, head, targets, tagTable, end, offset, k, s1, s2);
        if round.Err? {
          return;
        }
        offset, k, s1, s2 := offset + 1, round.value.0, round.value.1, round.value.2;
        assert offset < end;
      }
    }

    /** match.go: hashSearch, on a freshly opened file. */
    method HashSearch(targets: seq<Target>, tagTable: map<uint16, int>, head: SumHead, fileIndex: int32, f: OsFile)
      returns (r: Result<()>)
      requires SumsOk(head) && TargetsOk(head, targets) && TableOk(targets, tagTable)
      requires f.pos == 0 && lastMatch == 0
      modifies this`lastMatch, conn`wr, conn`writes, f`pos
      ensures conn.WroteShort()
      ensures r.Ok? <==> Searchable(seed, f.data, head, targets)
      ensures r.Err? ==> r.error == Panic
      ensures r.Ok? ==>
        conn.wr == old(conn.wr) + Reply(fileIndex, seed, head, SearchTokens(seed, f.data, head, targets), f.data)
    {
      DefWindowBound(head.blockLength);
      var ms := new MapStruct(f, |f.data|, Max(3 * head.blockLength, 256 * 1024), head.blockLength);
      conn.WriteInt32(fileIndex);
      WriteHead(head, conn);
      var h := new Hash(Le32(seed));
      if head.blockLength == 0 {
        SearchEmpty(h, ms, head, targets, tagTable);
        return Err(Panic);
      }
      r := SearchAndFinish(h, ms, head, targets, tagTable);
      if r.Ok? {
        ReplyAssembled(old(conn.wr), fileIndex, seed, head, SearchTokens(seed, f.data, head, targets), f.data);
      }
    }

    /** The search and what follows it. */
    method SearchAndFinish(h: Hash, ms: MapStruct, head: SumHead, targets: seq<Target>, tagTable: map<uint16, int>)
      returns (r: Result<()>)
      requires HeadOk(head) && TargetsOk(head, targets) && TableOk(targets, tagTable)
      requires ms.Valid() && ms.defWindowSize == DefWindow(head.blockLength) && lastMatch == 0
      modifies this`lastMatch, conn`wr, conn`writes, h, ms, ms.window, ms.f`pos
      ensures conn.WroteShort()
      ensures r.Ok? <==> Searchable(seed, ms.f.data, head, targets)
      ensures r.Err? ==> r.error == Panic
      ensures r.Ok? ==>
        conn.wr == old(conn.wr) + EncodeToks(SearchTokens(seed, ms.f.data, head, targets)) + Le32(0)
                   + MD4(old(h.absorbed) + ms.f.data)
    {
      DefWindowBound(head.blockLength);
      ghost var p := PlanOf(seed, ms.f.data, head, targets);
      PlanIsOk(seed, ms.f.data, head, targets);
      r := Search(h, ms, head, targets, tagTable, p);
      if r.Ok? {
        Finish(h, ms, head, p, old(conn.wr), old(h.absorbed));
      }
    }

    /** matched with token -1 at the end of the file: the rest of the literals and the end mark. */
    method SendRest(h: Hash, ms: MapStruct, head: SumHead)
      requires HeadOk(head) && ms.Valid() && lastMatch <= ms.fileSize
      requires lastMatch < ms.fileSize ==> Fits(ms.fileSize, ms.defWindowSize, lastMatch, ms.fileSize - lastMatch)
      modifies this`lastMatch, conn`wr, conn`writes, h, ms, ms.window, ms.f`pos
      ensures conn.WroteShort()
      ensures ms.Kept() && lastMatch == ms.fileSize == |ms.f.data|
      ensures h.absorbed == old(h.absorbed) + ms.f.data[old(lastMatch)..lastMatch]
      ensures conn.wr == old(conn.wr) + EncodeToks(Chunks(ms.f.data, old(lastMatch), lastMatch)) + Le32(0)
    {
      Matched(h, ms, head, ms.fileSize, -1);
    }

    /** hashSearch, lines 199-209: the rest of the literals, the end mark and the whole-file sum. */
    method Finish(h: Hash, ms: MapStruct, head: SumHead, ghost p: Plan, ghost wr: bytes, ghost absorbed: bytes)
      requires ms.Valid() && p.Ok() && p.file == ms.f.data && p.head == head && p.file != []
      requires Over(p, ms.defWindowSize, lastMatch, wr, conn.wr, absorbed, h.absorbed)
      modifies this`lastMatch, conn`wr, conn`writes, h, ms, ms.window, ms.f`pos
      ensures conn.WroteShort()
      ensures conn.wr == wr + EncodeToks(p.Greedy(0, 0)) + Le32(0) + MD4(absorbed + p.file)
    {
      ghost var lm := lastMatch;
      SendRest(h, ms, head);
      WholeFile(p.file, lm, absorbed);
      var sum := h.Sum();
      conn.Write(sum);
    }

    /** One round of the loop, with what it means for the whole search: `wr` and `absorbed` are what was
        written and hashed before the first one. */
    method Round(h: Hash, ms: MapStruct, head: SumHead, targets: seq<Target>, tagTable: map<uint16, int>,
                 end: int, offset: nat, k: int, s1: uint16, s2: uint16,
                 ghost p: Plan, ghost wr: bytes, ghost absorbed: bytes)
      returns (r: Result<(nat, int, uint16, uint16)>)
      requires TargetsOk(head, targets) && TableOk(targets, tagTable)
      requires p.Ok() && p.file == ms.f.data && p.head == head && end == p.End()
      requires forall o | 0 <= o < |p.file| :: p.picks[o] == Choice(seed, head, targets, Window(p.file, head, o))
      requires ms.Valid() && ms.defWindowSize >= head.blockLength + ALIGN_BOUNDARY
      requires At(p, offset, k, s1, s2)
      requires Underway(p, ms.defWindowSize, offset, lastMatch, wr, conn.wr, absorbed, h.absorbed)
      modifies this`lastMatch, conn`wr, conn`writes, h, ms, ms.window, ms.f`pos
      ensures conn.WroteShort()
      ensures ms.Kept() && (r.Ok? ==> ms.Valid())
      ensures r.Err? ==> p.file == [] || !p.Servable(ms.defWindowSize, 0, 0)
      ensures r.Ok? ==> p.file != [] && offset < r.value.0 <= |p.file|
      ensures r.Ok? && r.value.0 < end ==>
        && At(p, r.value.0, r.value.1, r.value.2, r.value.3)
        && Underway(p, ms.defWindowSize, r.value.0, lastMatch, wr, conn.wr, absorbed, h.absorbed)
      ensures r.Ok? && r.value.0 >= end ==>
        Over(p, ms.defWindowSize, lastMatch, wr, conn.wr, absorbed, h.absorbed)
    {
      ghost var def, lm, wr1, absorbed1 := ms.defWindowSize, lastMatch, conn.wr, h.absorbed;
      Visitable(p, def, offset, lm, wr, wr1, absorbed, absorbed1);
      r := Visit(h, ms, head, targets, tagTable, end, offset, k, s1, s2, p);
      if r.Err? {
        Stopped(p, def, offset, lm, wr, wr1, absorbed, absorbed1);
      } else {
        Visited(p, def, offset, lm, wr, wr1, conn.wr, absorbed, absorbed1, h.absorbed);
      }
    }

    /** hashSearch's outer loop. */
    method Search(h: Hash, ms: MapStruct, head: SumHead, targets: seq<Target>, tagTable: map<uint16, int>,
                  ghost p: Plan)
      returns (r: Result<()>)
      requires TargetsOk(head, targets) && TableOk(targets, tagTable)
      requires p.Ok() && p.file == ms.f.data && p.head == head
      requires forall o | 0 <= o < |p.file| :: p.picks[o] == Choice(seed, head, targets, Window(p.file, head, o))
      requires ms.Valid() && ms.defWindowSize >= head.blockLength + ALIGN_BOUNDARY && lastMatch == 0
      modifies this`lastMatch, conn`wr, conn`writes, h, ms, ms.window, ms.f`pos
      ensures conn.WroteShort()
      ensures r.Ok? <==> p.file != [] && p.Servable(old(ms.defWindowSize), 0, 0)
      ensures r.Err? ==> r.error == Panic
      ensures ms.Kept() && (r.Ok? ==> ms.Valid())
      ensures r.Ok? ==> Over(p, ms.defWindowSize, lastMatch, old(conn.wr), conn.wr, old(h.absorbed), h.absorbed)
    {
      var end := ms.fileSize + 1 - head.sums[|head.sums| - 1].len;
      var offset := 0;
      var k, s1, s2 := ReadChunk(ms, head, offset);
      ghost var wr, absorbed := conn.wr, h.absorbed;
      Starting(p, ms.defWindowSize, wr, absorbed);
      while true
        invariant ms.Valid() && ms.Kept() && conn.WroteShort() && At(p, offset, k, s1, s2)
        invariant Underway(p, ms.defWindowSize, offset, lastMatch, wr, conn.wr, absorbed, h.absorbed)
        decreases ms.fileSize - offset
      {
        var round := Round(h, ms, head, targets, tagTable, end, offset, k, s1, s2, p, wr, absorbed);
        if round.Err? {
          return Err(Panic);
        }
        offset, k, s1, s2 := round.value.0, round.value.1, round.value.2, round.value.3;
        if offset >= end {
          break;
        }
      }
      r := Ok(());
    }
  }

  /** Where the search is when it visits o: what went out is all but what is still to come, the hash
      has absorbed the file up to the first unsent byte, and the rest decides whether it succeeds. In an
      empty file it is at the start. */
  ghost predicate OnTheWay(p: Plan, def: nat, o: nat, lm: nat, wr: bytes, wr': bytes, absorbed: bytes, absorbed': bytes)
    requires p.Ok()
  {
    if p.file == [] then o == lm == 0
    else
      && p.Ready(def, o, lm)
      && wr' + EncodeToks(p.Greedy(o, lm)) == wr + EncodeToks(p.Greedy(0, 0))
      && absorbed' == absorbed + p.file[..lm]
      && (p.Servable(def, 0, 0) <==> p.Servable(def, o, lm))
  }

  /** `OnTheWay`, which the loop carries along without looking inside. */
  ghost predicate Underway(p: Plan, def: nat, o: nat, lm: nat, wr: bytes, wr': bytes, absorbed: bytes, absorbed': bytes)
    requires p.Ok()
  {
    forall key {:trigger Opened(key)} :: Opened(key) ==> OnTheWay(p, def, o, lm, wr, wr', absorbed, absorbed')
  }

  lemma Starting(p: Plan, def: nat, wr: bytes, absorbed: bytes)
    requires p.Ok()
    ensures Underway(p, def, 0, 0, wr, wr, absorbed, absorbed)
  {
    if p.file != [] {
      p.LastFits();
      NothingMore(absorbed);
      assert p.file[..0] == [];
    }
  }

  /** What a visit starts from. */
  lemma Visitable(p: Plan, def: nat, o: nat, lm: nat, wr: bytes, wr1: bytes, absorbed: bytes, absorbed1: bytes)
    requires p.Ok() && Underway(p, def, o, lm, wr, wr1, absorbed, absorbed1)
    ensures if p.file == [] then o == lm == 0 else p.Ready(def, o, lm)
  {
    assert Opened(0);
  }

  /** A visit that fails is one of a file that is not served. */
  lemma Stopped(p: Plan, def: nat, o: nat, lm: nat, wr: bytes, wr1: bytes, absorbed: bytes, absorbed1: bytes)
    requires p.Ok() && Underway(p, def, o, lm, wr, wr1, absorbed, absorbed1)
    requires p.file == [] || (lm <= o < |p.file| && p.picks[o] == None && !Fits(|p.file|, def, lm, p.Ahead(o) - lm))
    ensures p.file == [] || !p.Servable(def, 0, 0)
  {
    assert Opened(0);
    if p.file != [] {
      p.ServableStep(def, o, lm);
    }
  }

  lemma WholeFile(file: bytes, lm: nat, absorbed: bytes)
    requires lm <= |file|
    ensures absorbed + file[..lm] + file[lm..|file|] == absorbed + file
  {
    assert file[..lm] + file[lm..|file|] == file;
    Assoc(absorbed, file[..lm], file[lm..|file|]);
  }

  /** Where it is when it has left the loop. */
  ghost predicate Over(p: Plan, def: nat, lm: nat, wr: bytes, wr': bytes, absorbed: bytes, absorbed': bytes)
    requires p.Ok() && p.file != []
  {
    && lm <= |p.file| && (lm < |p.file| ==> Fits(|p.file|, def, lm, |p.file| - lm))
    && wr' + EncodeToks(Chunks(p.file, lm, |p.file|)) == wr + EncodeToks(p.Greedy(0, 0))
    && absorbed' == absorbed + p.file[..lm]
    && p.Servable(def, 0, 0)
  }

  lemma Visited(p: Plan, def: nat, o: nat, lm: nat, wr: bytes, wr1: bytes, wr2: bytes,
                absorbed: bytes, absorbed1: bytes, absorbed2: bytes)
    requires p.Ok() && p.head.blockLength + ALIGN_BOUNDARY <= def && p.file != []
    requires Underway(p, def, o, lm, wr, wr1, absorbed, absorbed1)
    requires lm <= o < |p.file| && (p.picks[o].None? ==> Fits(|p.file|, def, lm, p.Ahead(o) - lm))
    requires wr2 == wr1 + p.Sent(o, lm)
    requires lm <= p.After(o, lm) <= |p.file| && absorbed2 == absorbed1 + p.file[lm..p.After(o, lm)]
    ensures if p.Next(o) < p.End() then Underway(p, def, p.Next(o), p.After(o, lm), wr, wr2, absorbed, absorbed2)
            else Over(p, def, p.After(o, lm), wr, wr2, absorbed, absorbed2)
  {
    assert Opened(0);
    p.ReadyStep(def, o, lm);
    p.ServableStep(def, o, lm);
    VisitedBytes(p, o, lm, wr, wr1, wr2);
    VisitedHash(p.file, lm, p.After(o, lm), absorbed, absorbed1, absorbed2);
  }

  lemma VisitedBytes(p: Plan, o: nat, lm: nat, wr: bytes, wr1: bytes, wr2: bytes)
    requires p.Ok() && lm <= o < |p.file|
    requires wr1 + EncodeToks(p.Greedy(o, lm)) == wr + EncodeToks(p.Greedy(0, 0)) && wr2 == wr1 + p.Sent(o, lm)
    ensures lm <= p.After(o, lm) <= p.Next(o)
    ensures wr2 + EncodeToks(p.GreedyRest(p.Next(o), p.After(o, lm))) == wr + EncodeToks(p.Greedy(0, 0))
  {
    p.SentStep(o, lm);
    Assoc(wr1, p.Sent(o, lm), EncodeToks(p.GreedyRest(p.Next(o), p.After(o, lm))));
  }

  lemma VisitedHash(file: bytes, lm: nat, lm': nat, absorbed: bytes, absorbed1: bytes, absorbed2: bytes)
    requires lm <= lm' <= |file|
    requires absorbed1 == absorbed + file[..lm] && absorbed2 == absorbed1 + file[lm..lm']
    ensures absorbed2 == absorbed + file[..lm']
  {
    Assoc(absorbed, file[..lm], file[lm..lm']);
    assert file[..lm] + file[lm..lm'] == file[..lm'];
  }

  /** The parts of a reply, written one after the other. */
  lemma ReplyAssembled(wr: bytes, index: int32, seed: int32, h: SumHead, toks: seq<Tok>, file: bytes)
    ensures wr + Le32(index) + EncodeHead(h) + EncodeToks(toks) + Le32(0) + MD4(Le32(seed) + file)
         == wr + Reply(index, seed, h, toks, file)
  {
    var a, b, c, d := Le32(index), EncodeHead(h), EncodeToks(toks), Le32(0);
    var e := MD4(Le32(seed) + file);
    Assoc(wr + a + b + c, d, e);
    Assoc(wr + a + b, c, d + e);
    Assoc(wr + a, b, c + (d + e));
    Assoc(wr, a, b + (c + (d + e)));
  }

  /** The end of what the rolling update at o asks for: the window of k bytes and one more if there is one. */
  function AheadOf(fileSize: nat, o: int, k: nat): int { o + k + (if o + k < fileSize then 1 else 0) }

  /** The bytes that the rolling update takes from the region are those it needs. */
  lemma RegionBytes(file: bytes, o: nat, k: nat, backup: nat, mmore: int, region: bytes)
    requires o + k <= |file| && backup <= o && mmore == (if o + k < |file| then 1 else 0) && 0 < k + mmore
    requires SliceAt(file, o - backup, k + mmore + backup) == Ok(region)
    ensures |region| == k + mmore + backup
    ensures region[backup..][0] == file[o] && (mmore == 1 ==> region[backup..][k] == file[o + k])
  {
  }

  /** The byte that comes into the window at o when it slides. */
  function Newest(file: bytes, o: nat, k: nat): Option<byte> {
    if o + k < |file| then Some(file[o + k]) else None
  }

  /** The rolled sums are those of the next window. */
  lemma RollOn(p: Plan, o: nat, k: nat, s1: uint16, s2: uint16)
    requires p.head.blockLength >= 1 && At(p, o, k, s1, s2) && o < |p.file|
    ensures var next := RolledOn(k, s1, s2, p.file[o], Newest(p.file, o, k)); At(p, o + 1, next.0, next.1, next.2)
  {
    var w := p.file[o + 1..o + k];
    NextWindow(p.file, p.head, o, k);
    if o + k < |p.file| {
      RollIn(k, s1, s2, p.file[o], w, p.file[o + k]);
    } else {
      RollOut(k, s1, s2, p.file[o], w);
    }
  }

  /** Two windows in a row share all but a byte at each end. */
  lemma NextWindow(file: bytes, head: SumHead, o: nat, k: nat)
    requires head.blockLength >= 1 && o < |file| && k == Min(head.blockLength, |file| - o)
    ensures Window(file, head, o) == [file[o]] + file[o + 1..o + k]
    ensures Window(file, head, o + 1)
         == if o + k < |file| then file[o + 1..o + k] + [file[o + k]] else file[o + 1..o + k]
  {
  }

  /** An empty window stays empty: the byte that goes out of it is the one that comes in. */
  lemma RollEmpty(s1: uint16, s2: uint16, b: byte)
    requires Rolled(s1, s2, [])
    ensures var next := RolledOn(0, s1, s2, b, Some(b)); next.0 == 0 && Rolled(next.1, next.2, [])
  {
    OutAndIn(SignExtend(b));
    assert s1 == s2 == 0 && Out1(s1, b) == ToUint32(0 - SignExtend(b)) && Out2(s2, 0, b) == 0;
  }

  lemma OutAndIn(x: uint32)
    ensures ToUint32(ToUint32(0 - x) + x) == 0
  {
    assert ToUint32(0 - x) == if x == 0 then 0 else TWO_TO_THE_32 - x;
  }

  /** The start of a region that fits, fits. */
  lemma StartFits(fileSize: nat, def: nat, from: nat, mid: nat, end: nat)
    requires from <= mid <= end && (from < end ==> Fits(fileSize, def, from, end - from))
    ensures from < mid ==> Fits(fileSize, def, from, mid - from)
  {
    if from < mid {
      FitsShrinks(fileSize, def, from, end - from, from, mid - from);
    }
  }

  /** One round of the loop of simpleSendToken. */
  lemma ChunkSent(data: bytes, from: nat, next: nat, end: nat, wr: bytes, wr': bytes)
    requires from < end <= |data| && next == Min(from + CHUNK_SIZE, end)
    requires wr' == wr + EncodeTok(Lit(data[from..next]))
    ensures wr' + EncodeToks(Chunks(data, next, end)) == wr + EncodeToks(Chunks(data, from, end))
  {
    var tok := Lit(data[from..next]);
    var rest := Chunks(data, next, end);
    assert ([tok] + rest)[1..] == rest;
    Assoc(wr, EncodeTok(tok), EncodeToks(rest));
  }
}
