/** rsyncsender/fileio.go: a sliding window over a file, kept in one buffer that only grows. */
module MapStruct {
  import opened Bytes
  import opened Files

  const ALIGN_BOUNDARY := 1024

  /** For l > 0, or-ing l - 1 with 1023 fills its ten low bits. */
  function AlignedLength(l: int): int { (l - 1) / ALIGN_BOUNDARY * ALIGN_BOUNDARY + (ALIGN_BOUNDARY - 1) + 1 }

  function AlignedOvershoot(off: int): nat { off % ALIGN_BOUNDARY }

  /** Whether the window `ptr` picks for file[offset..offset+len] ends inside the file: either the
      default window covers the region, or the region's end rounded up to 1024 is in the file. */
  predicate WindowInFile(fileSize: nat, defWindowSize: nat, offset: nat, len: nat) {
    || offset + len - (offset - AlignedOvershoot(offset)) <= defWindowSize
    || AlignedLength(offset + len) <= fileSize
  }

  type FitTest = f: (nat, nat, nat, nat) -> bool
    | forall size: nat, def: nat, offset: nat, len: nat {:trigger WindowInFile(size, def, offset, len)} ::
        f(size, def, offset, len) == WindowInFile(size, def, offset, len)
    witness WindowInFile

  /** `WindowInFile` under a name that proofs carry along without its divisions; `FitsIs` says that it is that. */
  const Fits: FitTest

  lemma FitsIs(fileSize: nat, def: nat, offset: nat, len: nat)
    ensures Fits(fileSize, def, offset, len) <==> WindowInFile(fileSize, def, offset, len)
  {
  }

  /** A region inside a region that fits, fits. */
  lemma FitsShrinks(fileSize: nat, def: nat, offset: nat, len: nat, offset': nat, len': nat)
    requires 0 < len' && offset <= offset' && offset' + len' <= offset + len
    requires Fits(fileSize, def, offset, len)
    ensures Fits(fileSize, def, offset', len')
  {
    FitsIs(fileSize, def, offset, len);
    FitsIs(fileSize, def, offset', len');
    AlignedMonotone(offset' + len', offset + len);
    OvershootMonotone(offset, offset');
  }

  /** A whole number of alignment units, or a file no longer than the default window: everything fits. */
  lemma FitsAlways(fileSize: nat, def: nat, offset: nat, len: nat)
    requires 0 < len && offset + len <= fileSize
    requires fileSize % ALIGN_BOUNDARY == 0 || fileSize <= def
    ensures Fits(fileSize, def, offset, len)
  {
    FitsIs(fileSize, def, offset, len);
  }

  /** A region of at most the default window less one alignment unit, and one byte, fits wherever it is. */
  lemma ShortFits(fileSize: nat, def: nat, offset: nat, len: nat)
    requires len + ALIGN_BOUNDARY <= def + 1
    ensures Fits(fileSize, def, offset, len)
  {
    FitsIs(fileSize, def, offset, len);
  }

  function RoundedTo(readSize: int32, blkSize: int32): (r: int)
    requires readSize > 0
    ensures readSize <= r && (blkSize > 0 ==> r < readSize + blkSize)
  {
    if blkSize > 0 && readSize % blkSize != 0 then readSize + (blkSize - readSize % blkSize) else readSize
  }

  /** Where the window for a region starts and how long it is. */
  function WindowStart(offset: int): int { offset - AlignedOvershoot(offset) }

  function WindowSize(fileSize: nat, def: nat, offset: int, len: nat): int {
    var start := WindowStart(offset);
    var size := if start + def > fileSize then fileSize - start else def;
    if size < offset + len - start then AlignedLength(offset + len - start) else size
  }

  lemma AlignedLengthIs(x: int)
    ensures x <= AlignedLength(x) < x + ALIGN_BOUNDARY && AlignedLength(x) % ALIGN_BOUNDARY == 0
  {
  }

  lemma AlignedMonotone(x: int, y: int)
    requires x <= y
    ensures AlignedLength(x) <= AlignedLength(y)
  {
  }

  lemma AlignedIs(x: int, y: int)
    requires x % ALIGN_BOUNDARY == 0 && y % ALIGN_BOUNDARY == 0
    ensures AlignedLength(x + y) == x + y && AlignedOvershoot(x) == 0
  {
  }

  lemma OvershootMonotone(x: int, y: int)
    requires x <= y
    ensures x - AlignedOvershoot(x) <= y - AlignedOvershoot(y)
  {
  }

  lemma AlignedShift(start: int, x: int)
    requires start % ALIGN_BOUNDARY == 0
    ensures start + AlignedLength(x) == AlignedLength(start + x)
  {
    var q := start / ALIGN_BOUNDARY;
    assert (start + x - 1) / ALIGN_BOUNDARY == q + (x - 1) / ALIGN_BOUNDARY;
  }

  lemma StartIs(offset: int)
    ensures var start := WindowStart(offset);
      && start % ALIGN_BOUNDARY == 0 && start <= offset < start + ALIGN_BOUNDARY
      && (start < 0 <==> offset < 0)
  {
  }

  /** The window covers the region; it lies in the file exactly when the region fits, and then it
      ends on a boundary or at the end of the file. */
  lemma WindowCovers(fileSize: nat, def: nat, offset: int, len: nat)
    requires 0 < len && 0 < def && def % ALIGN_BOUNDARY == 0
    ensures var start, size := WindowStart(offset), WindowSize(fileSize, def, offset, len);
      && start % ALIGN_BOUNDARY == 0 && (start < 0 <==> offset < 0)
      && start <= offset && offset + len <= start + size
      && (offset >= 0 ==> (start + size <= fileSize <==> offset + len <= fileSize && Fits(fileSize, def, offset, len)))
      && (start + size <= fileSize && size % ALIGN_BOUNDARY != 0 ==> size <= def && start + size == fileSize)
  {
    var start := WindowStart(offset);
    if offset >= 0 { FitsIs(fileSize, def, offset, len); }
    StartIs(offset);
    AlignedLengthIs(offset + len - start);
    AlignedShift(start, offset + len - start);
  }

  /** A region inside an earlier window of the file fits as well: the cache never hides a failure. */
  lemma CachedFits(fileSize: nat, def: nat, pOffset: nat, pLen: nat, offset: nat, len: nat)
    requires 0 < len && 0 < def && def % ALIGN_BOUNDARY == 0
    requires pOffset % ALIGN_BOUNDARY == 0 && pOffset + pLen <= fileSize
    requires pLen % ALIGN_BOUNDARY == 0 || (pLen <= def && pOffset + pLen == fileSize)
    requires pOffset <= offset && offset + len <= pOffset + pLen
    ensures Fits(fileSize, def, offset, len)
  {
    FitsIs(fileSize, def, offset, len);
    if pLen % ALIGN_BOUNDARY == 0 {
      AlignedMonotone(offset + len, pOffset + pLen);
      AlignedIs(pOffset, pLen);
    } else {
      AlignedIs(pOffset, 0);
      OvershootMonotone(pOffset, offset);
    }
  }

  /** A predicate that holds of every number and means nothing. `forall key :: Opened(key) ==> P` says the
      same as P, but a proof learns it only where it mentions `Opened`; so large predicates are kept shut
      where they are only carried along. */
  ghost predicate Opened(key: int) { true }

  class MapStruct {
    var fileSize: nat
    var pOffset: nat
    var pFdOffset: nat
    var window: array<byte>
    var pSize: nat
    var pLen: nat
    var defWindowSize: nat
    const f: OsFile

    /** The first pLen bytes of the window mirror the file at pOffset, and f's cursor is where
        pFdOffset says. The window ends on an alignment boundary or at the end of the file. */
    ghost predicate Mirrors()
      reads this, window, f
    {
      && fileSize == |f.data|
      && f.pos == pFdOffset
      && window.Length == pSize
      && pLen <= pSize
      && pOffset % ALIGN_BOUNDARY == 0
      && pOffset + pLen <= fileSize
      && window[..pLen] == f.data[pOffset..pOffset + pLen]
      && 0 < defWindowSize && defWindowSize % ALIGN_BOUNDARY == 0
      && (pLen % ALIGN_BOUNDARY == 0 || (pLen <= defWindowSize && pOffset + pLen == fileSize))
    }

    /** `Mirrors`, which callers carry along without looking inside. */
    ghost predicate Valid()
      reads this, window, f
    {
      fileSize == |f.data| && forall key {:trigger Opened(key)} :: Opened(key) ==> Mirrors()
    }

    /** What no operation changes, and that a new window is a new array. */
    twostate predicate Kept()
      reads this
    {
      && fileSize == old(fileSize) && defWindowSize == old(defWindowSize)
      && (window == old(window) || fresh(window))
    }

    /** mapFile, on a freshly opened file. */
    constructor (f: OsFile, len: nat, readSize: int32, blkSize: int32)
      requires readSize > 0 && RoundedTo(readSize, blkSize) < 0x8000_0000
      requires len == |f.data| && f.pos == 0
      ensures Valid() && fresh(this) && fresh(window) && this.f == f && fileSize == len
      ensures readSize <= defWindowSize
      ensures defWindowSize == AlignedLength(RoundedTo(readSize, blkSize))
    {
      var rs: int := RoundedTo(readSize, blkSize);
      fileSize, pOffset, pFdOffset, pSize, pLen := len, 0, 0, 0, 0;
      defWindowSize := AlignedLength(rs);
      window := new byte[0];
      this.f := f;
    }

    /** A longer buffer that starts with the old one's bytes. */
    method Grow(windowSize: nat)
      requires window.Length == pSize < windowSize
      modifies this`window, this`pSize
      ensures fresh(window) && window.Length == pSize == windowSize
      ensures window[..old(pSize)] == old(window[..])
    {
      var win := new byte[windowSize];
      forall i | 0 <= i < window.Length {
        win[i] := window[i];
      }
      window, pSize := win, windowSize;
    }

    /** One read behind the bytes that window[at..from] has got from the file at `start`. */
    method ReadMore(at: nat, from: nat, limit: nat, ghost start: nat) returns (n: nat, eof: bool)
      requires at <= from < limit <= window.Length && f.pos == start + (from - at)
      requires from > at ==> f.pos <= |f.data| && window[at..from] == f.data[start..f.pos]
      modifies f`pos, window
      ensures eof <==> old(f.pos) >= |f.data|
      ensures f.pos == old(f.pos) + n
      ensures !eof ==> 1 <= n <= limit - from && f.pos <= |f.data| && window[at..from + n] == f.data[start..f.pos]
      ensures window[..at] == old(window[..at])
    {
      ghost var pos, before := f.pos, window[..from];
      n, eof := f.Read(window, from, limit);
      if !eof {
        Extended(before, window[..], at, from, from + n, f.data, start, pos, f.pos);
      }
    }

    /** Reads until window[at..at + size] is full, in as many reads as the file needs. */
    method Fill(at: nat, size: nat) returns (ok: bool)
      requires f.pos == pFdOffset && 0 < size && at + size <= window.Length
      modifies this`pFdOffset, f`pos, window
      ensures ok <==> old(pFdOffset) + size <= |f.data|
      ensures ok ==> f.pos == pFdOffset
      ensures ok ==> window[at..at + size] == f.data[old(pFdOffset)..old(pFdOffset) + size]
      ensures window[..at] == old(window[..at])
    {
      var readOffset, readSize := at, size;
      ghost var start := pFdOffset;
      while readSize > 0
        invariant f.pos == pFdOffset && at <= readOffset && 0 <= readSize && readOffset + readSize == at + size
        invariant pFdOffset == start + (readOffset - at)
        invariant readOffset > at ==>
          pFdOffset <= |f.data| && window[at..readOffset] == f.data[start..pFdOffset]
        invariant window[..at] == old(window[..at])
      {
        var n, eof := ReadMore(at, readOffset, readOffset + readSize, start);
        if eof {
          return false;
        }
        pFdOffset := pFdOffset + n;
        readOffset := readOffset + n;
        readSize := readSize - n;
      }
      ok := true;
    }

    /** One more read: the bytes before it have not changed, and those from it on are the next ones. */
    static lemma Extended(before: bytes, after: bytes, at: nat, mid: nat, next: nat,
                          data: bytes, start: nat, pos: nat, pos': nat)
      requires at <= mid == |before| && mid < next <= |after| && start <= pos < pos' <= |data|
      requires after[..mid] == before && after[mid..next] == data[pos..pos']
      requires if mid == at then start == pos else before[at..mid] == data[start..pos]
      ensures after[at..next] == data[start..pos'] && after[..at] == before[..at]
    {
      assert after[..at] == after[..mid][..at] && after[at..mid] == after[..mid][at..mid];
      assert after[at..next] == after[at..mid] + after[mid..next];
      assert data[start..pos'] == data[start..pos] + data[pos..pos'];
    }

    /** Moves the cursor to `start` unless it is there. */
    method SeekTo(start: int) returns (ok: bool)
      requires f.pos == pFdOffset
      modifies this`pFdOffset, f`pos
      ensures ok <==> 0 <= start
      ensures ok ==> f.pos == pFdOffset == start
    {
      ok := true;
      if pFdOffset != start {
        ok := f.Seek(start);
        if ok {
          pFdOffset := start;
        }
      }
    }

    /** Moves the n bytes at window[off..] to the front of the window. */
    method MoveToFront(off: nat, n: nat)
      requires off + n <= window.Length
      modifies window
      ensures window[..n] == old(window[off..off + n])
    {
      forall i | 0 <= i < n {
        window[i] := window[off + i];
      }
    }

    /** Allocates room for windowSize bytes; the mirrored bytes stay. */
    method Reserve(windowSize: nat)
      requires Mirrors()
      modifies this`window, this`pSize
      ensures Mirrors() && windowSize <= pSize
      ensures window == old(window) || fresh(window)
    {
      if windowSize > pSize {
        ghost var mirrored := window[..pLen];
        Grow(windowSize);
        assert window[..pLen] == window[..old(pSize)][..pLen] == mirrored;
      }
    }

    /** Keeps the part of the window that the new one starts with; returns how much that is. */
    method Reuse(windowStart: int, windowSize: nat) returns (readOffset: nat)
      requires Mirrors() && 0 < windowSize <= pSize
      requires pOffset <= windowStart ==> pOffset + pLen < windowStart + windowSize
      modifies window
      ensures readOffset == if pOffset <= windowStart then Max(pOffset + pLen - windowStart, 0) else 0
      ensures readOffset < windowSize && (readOffset > 0 ==> 0 <= windowStart)
      ensures readOffset > 0 ==> SliceAt(f.data, windowStart, readOffset) == Ok(window[..readOffset])
    {
      readOffset := 0;
      if windowStart >= pOffset && windowStart < pOffset + pLen && windowStart + windowSize >= pOffset + pLen {
        readOffset := pOffset + pLen - windowStart;
        var off := pLen - readOffset;
        SliceOfWindow(off, readOffset);
        MoveToFront(off, readOffset);
      }
    }

    /** Any stretch of the mirrored bytes mirrors the file. */
    lemma SliceOfWindow(off: nat, n: nat)
      requires Mirrors() && off + n <= pLen
      ensures SliceAt(f.data, pOffset + off, n) == Ok(window[off..off + n])
    {
      assert window[off..off + n] == window[..][off..off + n] && window[..pLen] == window[..][..pLen];
      SliceOfPrefix(window[..], pLen, off, off + n);
      SliceOfSlice(f.data, pOffset, pLen, off, n);
    }

    /** Makes the window show file[windowStart..windowStart + windowSize], keeping the bytes it
        already has when the new window starts inside the old one. */
    method Load(windowStart: int, windowSize: nat) returns (ok: bool)
      requires Mirrors() && 0 < windowSize
      requires pOffset <= windowStart ==> pOffset + pLen < windowStart + windowSize
      modifies this, window, f`pos
      ensures Kept()
      ensures ok <==> 0 <= windowStart && windowStart + windowSize <= fileSize
      ensures ok ==> f.pos == pFdOffset && pOffset == windowStart && pLen == windowSize
      ensures ok ==> window.Length == pSize && pLen <= pSize
      ensures ok ==> SliceAt(f.data, windowStart, windowSize) == Ok(window[..windowSize])
    {
      Reserve(windowSize);
      var readOffset := Reuse(windowStart, windowSize);
      var readStart := windowStart + readOffset;
      var readSize: int := windowSize - readOffset;
      if readSize <= 0 {
        return false;
      }
      ok := SeekTo(readStart);
      if !ok {
        return;
      }
      pOffset := windowStart;
      pLen := windowSize;
      ok := Complete(windowStart, windowSize, readOffset);
    }

    /** Reads what the window lacks behind its first readOffset bytes. */
    method Complete(windowStart: nat, windowSize: nat, readOffset: nat) returns (ok: bool)
      requires f.pos == pFdOffset == windowStart + readOffset && readOffset < windowSize <= window.Length
      requires readOffset > 0 ==> SliceAt(f.data, windowStart, readOffset) == Ok(window[..readOffset])
      modifies this`pFdOffset, f`pos, window
      ensures ok <==> windowStart + windowSize <= |f.data|
      ensures ok ==> f.pos == pFdOffset && SliceAt(f.data, windowStart, windowSize) == Ok(window[..windowSize])
    {
      ghost var kept := window[..readOffset];
      ok := Fill(readOffset, windowSize - readOffset);
      if ok {
        assert window[..windowSize] == kept + window[readOffset..windowSize];
        SliceJoin(f.data, windowStart, readOffset, windowSize);
      }
    }

    /** file[offset..offset + l], or nothing when l <= 0, when the region is not in the file, or
        when the window picked for it runs past the end of the file. */
    method Ptr(offset: int, l: int32) returns (r: Option<bytes>)
      requires Valid()
      modifies this, window, f`pos
      ensures Kept()
      ensures r.Some? <==> 0 < l && 0 <= offset && offset + l <= fileSize && Fits(fileSize, defWindowSize, offset, l)
      ensures r.Some? ==> SliceAt(f.data, offset, l) == Ok(r.value)
      ensures r.Some? || l <= 0 ==> Valid()
    {
      assert Opened(0);
      var len := l;
      if len == 0 {
        return None;
      }
      if len < 0 {
        return None;
      }
      if offset >= pOffset && offset + len <= pOffset + pLen {
        CachedFits(fileSize, defWindowSize, pOffset, pLen, offset, len);
        var off := offset - pOffset;
        SliceOfWindow(off, len);
        return Some(window[off..off + len]);
      }
      r := Refill(offset, len);
    }

    /** The part of `ptr` for a region that the window does not show. */
    method Refill(offset: int, len: nat) returns (r: Option<bytes>)
      requires Mirrors() && 0 < len && !(offset >= pOffset && offset + len <= pOffset + pLen)
      modifies this, window, f`pos
      ensures Kept()
      ensures r.Some? <==> 0 <= offset && offset + len <= fileSize && Fits(fileSize, defWindowSize, offset, len)
      ensures r.Some? ==> Mirrors() && SliceAt(f.data, offset, len) == Ok(r.value)
    {
      WindowCovers(fileSize, defWindowSize, offset, len);
      var windowStart, windowSize := PickWindow(offset, len);
      var ok := Load(windowStart, windowSize);
      if !ok {
        return None;
      }
      var alignFudge := AlignedOvershoot(offset);
      SliceOfWindow(alignFudge, len);
      r := Some(window[alignFudge..alignFudge + len]);
    }

    /** The default window from the alignment boundary below `offset`, cut at the end of the file,
        or a longer one when that does not cover the region. */
    method PickWindow(offset: int, len: nat) returns (windowStart: int, windowSize: nat)
      requires 0 < len && 0 < defWindowSize && defWindowSize % ALIGN_BOUNDARY == 0
      ensures windowStart == WindowStart(offset) && windowSize == WindowSize(fileSize, defWindowSize, offset, len)
    {
      WindowCovers(fileSize, defWindowSize, offset, len);
      var alignFudge := AlignedOvershoot(offset);
      windowStart := offset - alignFudge;
      var size: int := defWindowSize;
      if windowStart + size > fileSize {
        size := fileSize - windowStart;
      }
      if size < len + alignFudge {
        size := AlignedLength(len + alignFudge);
      }
      windowSize := size;
    }
  }
}
