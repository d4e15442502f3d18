/** rsyncsender/flist.go and rsyncreceiver/flist.go: one entry of the file list, written in full by the
    sender and read by a decoder that can inherit fields from the entry before. */
module FileEntry {
  import opened Bytes
  import opened Wire

  const PATH_MAX := 4096

  // rsync/consts.go
  const S_IFIFO := 0x1000
  const S_IFCHR := 0x2000
  const S_IFDIR := 0x4000
  const S_IFBLK := 0x6000
  const S_IFREG := 0x8000
  const S_IFLNK := 0xA000
  const S_IFSOCK := 0xC000

  /** rsyncsender/stat.go answers every uid, gid and rdev with this number. */
  const STAT_ID := 1000

  const DOT: bytes := [46]
  const SLASH: bytes := [47]

  /** filepath.Clean: idempotent, and never longer than its argument except that "" becomes ".". */
  type Cleaner = f: bytes -> bytes
    | (forall s {:trigger f(s)} :: f(f(s)) == f(s) && |f(s)| <= Max(1, |s|))
    witness Same

  function Same(s: bytes): bytes { s }

  const Clean: Cleaner

  /** The options that decide which fields travel. */
  datatype Options = Options(uid: bool, gid: bool, devices: bool, specials: bool, links: bool, checksum: bool)

  /** utils.ReceiverFile. `mtime` is in seconds. */
  datatype Entry = Entry(name: bytes, length: int64, mtime: int, mode: int32, uid: int32, gid: int32,
                         link: bytes, rdev: int32)

  /** new(utils.ReceiverFile). */
  const NO_ENTRY := Entry([], 0, 0, 0, 0, 0, [], 0)

  // ---------- The status byte ----------

  datatype Flags = Flags(topDir: bool, sameMode: bool, sameRdev: bool, sameUid: bool, sameGid: bool,
                         sameName: bool, longName: bool, sameTime: bool)

  function WithBit(b: bool, high: nat): (r: nat)
    ensures r % 2 == (if b then 1 else 0) && r / 2 == high
  {
    2 * high + if b then 1 else 0
  }

  /** Bits 0 to 7: XMIT_TOP_DIR, SAME_MODE, SAME_RDEV_pre28, SAME_UID, SAME_GID, SAME_NAME, LONG_NAME
      and SAME_TIME. */
  function StatusByte(f: Flags): byte {
    var high: nat := WithBit(f.sameGid, WithBit(f.sameName, WithBit(f.longName, WithBit(f.sameTime, 0))));
    WithBit(f.topDir, WithBit(f.sameMode, WithBit(f.sameRdev, WithBit(f.sameUid, high))))
  }

  function FlagsOf(b: byte): Flags {
    Flags(b % 2 == 1, b / 2 % 2 == 1, b / 4 % 2 == 1, b / 8 % 2 == 1,
          b / 16 % 2 == 1, b / 32 % 2 == 1, b / 64 % 2 == 1, b / 128 % 2 == 1)
  }

  lemma FlagsRoundTrip(f: Flags)
    ensures FlagsOf(StatusByte(f)) == f
  {
    var b7 := WithBit(f.sameTime, 0);
    var b6 := WithBit(f.longName, b7);
    var b5 := WithBit(f.sameName, b6);
    var b4 := WithBit(f.sameGid, b5);
    var b3 := WithBit(f.sameUid, b4);
    var b2 := WithBit(f.sameRdev, b3);
    var b1 := WithBit(f.sameMode, b2);
    var b := WithBit(f.topDir, b1);
    Halvings(b);
    assert StatusByte(f) == b;
  }

  /** The value of each flag. */
  lemma StatusBits(f: Flags)
    ensures StatusByte(f)
         == (if f.topDir then 1 else 0) + (if f.sameMode then 2 else 0) + (if f.sameRdev then 4 else 0)
            + (if f.sameUid then 8 else 0) + (if f.sameGid then 16 else 0) + (if f.sameName then 32 else 0)
            + (if f.longName then 64 else 0) + (if f.sameTime then 128 else 0)
  {
  }

  /** The bits of rsync/consts.go that a sender of this repository sets. */
  const XMIT_TOP_DIR: byte := 1
  const XMIT_LONG_NAME: byte := 64

  lemma Halvings(b: nat)
    ensures b / 4 == b / 2 / 2 && b / 8 == b / 4 / 2 && b / 16 == b / 8 / 2
    ensures b / 32 == b / 16 / 2 && b / 64 == b / 32 / 2 && b / 128 == b / 64 / 2
  {
  }

  // ---------- The type of a file ----------

  /** mode & S_IFMT, the four bits from bit 12 on. */
  function Format(mode: int32): int { mode % 0x1_0000 / 0x1000 * 0x1000 }

  /** Only the low 16 bits of a mode count, also when it is negative. */
  lemma FormatPeriodic(mode: int32, k: int)
    requires -0x8000_0000 <= mode + 0x1_0000 * k < 0x8000_0000
    ensures Format(mode + 0x1_0000 * k) == Format(mode) && 0 <= Format(mode) <= 0xF000
  {
    assert (mode + 0x1_0000 * k) % 0x1_0000 == mode % 0x1_0000;
  }

  predicate IsDevice(mode: int32) { Format(mode) == S_IFCHR || Format(mode) == S_IFBLK }

  predicate IsSpecial(mode: int32) { Format(mode) == S_IFIFO || Format(mode) == S_IFSOCK }

  predicate IsLink(mode: int32) { Format(mode) == S_IFLNK }

  // ---------- Reading an entry ----------

  /** The inherited prefix: `copy` leaves zero bytes where the last name is too short. */
  function Inherited(last: bytes, l1: nat): (b: bytes)
    ensures |b| == l1
  {
    if l1 <= |last| then last[..l1] else last + seq(l1 - |last|, _ => 0)
  }

  /** A negative length makes `make` or the slice expression panic. */
  function ParseName(inp: bytes, f: Flags, last: bytes): (r: Result<(bytes, bytes)>)
    ensures r.Ok? ==> |r.value.1| <= |inp|
  {
    var (l1, r1) :- if f.sameName then ParseByte(inp) else Ok((0, inp));
    var (l2, r2) :- ParseNameLength(r1, f.longName);
    if l2 >= PATH_MAX - l1 then Err(NameOverflow)
    else if l2 < 0 then Err(Panic)
    else
      var (b, r3) :- ParseBytes(r2, l2);
      Ok((Clean(Inherited(last, l1) + b), r3))
  }

  function ParseNameLength(inp: bytes, long: bool): (r: Result<(int32, bytes)>)
    ensures r.Ok? ==> |r.value.1| <= |inp|
  {
    if long then ParseInt32(inp) else ParseByte(inp)
  }

  /** A field that is absent, inherited or on the wire. */
  function ParseField(inp: bytes, present: bool, same: bool, last: int32): (r: Result<(int32, bytes)>)
    ensures r.Ok? ==> |r.value.1| <= |inp|
  {
    if !present then Ok((0, inp)) else if same then Ok((last, inp)) else ParseInt32(inp)
  }

  function ParseTime(inp: bytes, same: bool, last: int): (r: Result<(int, bytes)>)
    ensures r.Ok? ==> |r.value.1| <= |inp|
  {
    if same then Ok((last, inp)) else ParseInt32(inp)
  }

  function ParseLink(inp: bytes, present: bool): (r: Result<(bytes, bytes)>)
    ensures r.Ok? ==> |r.value.1| <= |inp|
  {
    if !present then Ok(([], inp))
    else
      var (n, rest) :- ParseInt32(inp);
      if n < 0 then Err(Panic) else ParseBytes(rest, n)
  }

  predicate HasRdev(o: Options, mode: int32) { o.devices && (IsDevice(mode) || IsSpecial(mode)) }

  predicate HasLink(o: Options, mode: int32) { o.links && IsLink(mode) }

  /** The fields every entry has. */
  function ParseStat(inp: bytes, f: Flags, last: Entry): (r: Result<(Entry, bytes)>)
    ensures r.Ok? ==> |r.value.1| <= |inp|
  {
    var (name, r1) :- ParseName(inp, f, last.name);
    var (length, r2) :- ParseInt64(r1);
    var (mtime, r3) :- ParseTime(r2, f.sameTime, last.mtime);
    var (mode, r4) :- ParseField(r3, true, f.sameMode, last.mode);
    Ok((NO_ENTRY.(name := name, length := length, mtime := mtime, mode := mode), r4))
  }

  /** The fields that depend on the options and the mode. */
  function ParseExtras(o: Options, inp: bytes, f: Flags, last: Entry, e: Entry): (r: Result<(Entry, bytes)>)
    ensures r.Ok? ==> |r.value.1| <= |inp|
  {
    var (owned, rest) :- ParseOwner(o, inp, f, last, e);
    ParseTarget(o, rest, f, last, owned)
  }

  function ParseOwner(o: Options, inp: bytes, f: Flags, last: Entry, e: Entry): (r: Result<(Entry, bytes)>)
    ensures r.Ok? ==> |r.value.1| <= |inp| && r.value.0.mode == e.mode
  {
    var (uid, r1) :- ParseField(inp, o.uid, f.sameUid, last.uid);
    var (gid, r2) :- ParseField(r1, o.gid, f.sameGid, last.gid);
    Ok((e.(uid := uid, gid := gid), r2))
  }

  function ParseTarget(o: Options, inp: bytes, f: Flags, last: Entry, e: Entry): (r: Result<(Entry, bytes)>)
    ensures r.Ok? ==> |r.value.1| <= |inp|
  {
    var (rdev, r3) :- ParseField(inp, HasRdev(o, e.mode), f.sameRdev, last.rdev);
    var (link, r4) :- ParseLink(r3, HasLink(o, e.mode));
    Ok((e.(rdev := rdev, link := link), r4))
  }

  function ParseEntry(o: Options, inp: bytes, f: Flags, last: Entry): (r: Result<(Entry, bytes)>)
    ensures r.Ok? ==> |r.value.1| <= |inp|
  {
    var (e, rest) :- ParseStat(inp, f, last);
    ParseExtras(o, rest, f, last, e)
  }

  // ---------- Writing an entry, inheriting what a writer chooses to ----------

  function EncodeName(name: bytes, f: Flags, l1: byte): bytes
    requires l1 <= |name| && (!f.longName ==> |name| - l1 < 256)
  {
    (if f.sameName then [l1] else []) + (EncodeNameLength(|name| - l1, f.longName) + name[l1..])
  }

  function EncodeNameLength(l2: nat, long: bool): bytes
    requires !long ==> l2 < 256
  {
    if long then Le32(l2) else [l2]
  }

  function EncodeField(v: int32, present: bool, same: bool): bytes { if !present || same then [] else Le32(v) }

  function EncodeLink(link: bytes, present: bool): bytes { if present then Le32(|link|) + link else [] }

  function EncodeStat(e: Entry, f: Flags, l1: byte): bytes
    requires l1 <= |e.name| && (!f.longName ==> |e.name| - l1 < 256)
  {
    EncodeName(e.name, f, l1)
    + (EncodeInt64(e.length) + ((if f.sameTime then [] else Le32(e.mtime)) + EncodeField(e.mode, true, f.sameMode)))
  }

  function EncodeExtras(o: Options, e: Entry, f: Flags): bytes {
    EncodeField(e.uid, o.uid, f.sameUid)
    + (EncodeField(e.gid, o.gid, f.sameGid)
       + (EncodeField(e.rdev, HasRdev(o, e.mode), f.sameRdev) + EncodeLink(e.link, HasLink(o, e.mode))))
  }

  function EncodeEntry(o: Options, e: Entry, f: Flags, l1: byte): bytes
    requires l1 <= |e.name| && (!f.longName ==> |e.name| - l1 < 256)
  {
    EncodeStat(e, f, l1) + EncodeExtras(o, e, f)
  }

  /** An entry the format can carry: clean name, fields in range, and absent fields at their zero value. */
  predicate Storable(o: Options, e: Entry) {
    && Clean(e.name) == e.name && |e.name| < PATH_MAX
    && -0x8000_0000 <= e.mtime < 0x8000_0000
    && |e.link| < 0x8000_0000
    && (!o.uid ==> e.uid == 0) && (!o.gid ==> e.gid == 0)
    && (!HasRdev(o, e.mode) ==> e.rdev == 0) && (!HasLink(o, e.mode) ==> e.link == [])
  }

  predicate SameNameOk(last: bytes, name: bytes, f: Flags, l1: byte) {
    && l1 <= |name| && (!f.longName ==> |name| - l1 < 256)
    && if f.sameName then l1 <= |last| && last[..l1] == name[..l1] else l1 == 0
  }

  /** Each field that is not written has the value it had in the entry before. */
  predicate Inherits(o: Options, last: Entry, e: Entry, f: Flags, l1: byte) {
    && SameNameOk(last.name, e.name, f, l1)
    && (f.sameTime ==> e.mtime == last.mtime)
    && (f.sameMode ==> e.mode == last.mode)
    && (o.uid && f.sameUid ==> e.uid == last.uid)
    && (o.gid && f.sameGid ==> e.gid == last.gid)
    && (HasRdev(o, e.mode) && f.sameRdev ==> e.rdev == last.rdev)
  }

  lemma NameRoundTrip(name: bytes, f: Flags, l1: byte, last: bytes, rest: bytes)
    requires Clean(name) == name && |name| < PATH_MAX && SameNameOk(last, name, f, l1)
    ensures ParseName(EncodeName(name, f, l1) + rest, f, last) == Ok((name, rest))
  {
    var head := if f.sameName then [l1] else [];
    var len, tail := EncodeNameLength(|name| - l1, f.longName), name[l1..];
    Assoc(head, len + tail, rest);
    Assoc(len, tail, rest);
    if f.sameName {
      ParseByteRoundTrip(l1, len + (tail + rest));
    } else {
      NothingBefore(len + (tail + rest));
    }
    if f.longName {
      ParseInt32RoundTrip(|tail|, tail + rest);
    } else {
      ParseByteRoundTrip(|tail|, tail + rest);
    }
    ParseBytesRoundTrip(tail, rest);
    assert Inherited(last, l1) + tail == name;
  }

  lemma ParseByteRoundTrip(b: byte, rest: bytes)
    ensures ParseByte([b] + rest) == Ok((b, rest))
  {
    assert ([b] + rest)[1..] == rest;
  }

  lemma FieldRoundTrip(v: int32, present: bool, same: bool, last: int32, rest: bytes)
    requires if present then same ==> v == last else v == 0
    ensures ParseField(EncodeField(v, present, same) + rest, present, same, last) == Ok((v, rest))
  {
    if !present || same {
      NothingBefore(rest);
    } else {
      ParseInt32RoundTrip(v, rest);
    }
  }

  lemma TimeRoundTrip(t: int32, same: bool, last: int, rest: bytes)
    requires same ==> t == last
    ensures ParseTime((if same then [] else Le32(t)) + rest, same, last) == Ok((t, rest))
  {
    if same {
      NothingBefore(rest);
    } else {
      ParseInt32RoundTrip(t, rest);
    }
  }

  lemma LinkRoundTrip(link: bytes, present: bool, rest: bytes)
    requires |link| < 0x8000_0000 && (!present ==> link == [])
    ensures ParseLink(EncodeLink(link, present) + rest, present) == Ok((link, rest))
  {
    if present {
      Assoc(Le32(|link|), link, rest);
      ParseInt32RoundTrip(|link|, link + rest);
      ParseBytesRoundTrip(link, rest);
    } else {
      NothingBefore(rest);
    }
  }

  lemma StatRoundTrip(o: Options, last: Entry, e: Entry, f: Flags, l1: byte, rest: bytes)
    requires Storable(o, e) && Inherits(o, last, e, f, l1)
    ensures ParseStat(EncodeStat(e, f, l1) + rest, f, last)
         == Ok((NO_ENTRY.(name := e.name, length := e.length, mtime := e.mtime, mode := e.mode), rest))
  {
    var name, length := EncodeName(e.name, f, l1), EncodeInt64(e.length);
    var time, mode := if f.sameTime then [] else Le32(e.mtime), EncodeField(e.mode, true, f.sameMode);
    Assoc(name, length + (time + mode), rest);
    Assoc(length, time + mode, rest);
    Assoc(time, mode, rest);
    NameRoundTrip(e.name, f, l1, last.name, length + (time + (mode + rest)));
    ParseInt64RoundTrip(e.length, time + (mode + rest));
    TimeRoundTrip(e.mtime, f.sameTime, last.mtime, mode + rest);
    FieldRoundTrip(e.mode, true, f.sameMode, last.mode, rest);
  }

  lemma ExtrasRoundTrip(o: Options, last: Entry, e: Entry, f: Flags, l1: byte, p: Entry, rest: bytes)
    requires Storable(o, e) && Inherits(o, last, e, f, l1) && p.mode == e.mode
    ensures ParseExtras(o, EncodeExtras(o, e, f) + rest, f, last, p)
         == Ok((p.(uid := e.uid, gid := e.gid, rdev := e.rdev, link := e.link), rest))
  {
    var uid, gid := EncodeField(e.uid, o.uid, f.sameUid), EncodeField(e.gid, o.gid, f.sameGid);
    var rdev, link := EncodeField(e.rdev, HasRdev(o, e.mode), f.sameRdev), EncodeLink(e.link, HasLink(o, e.mode));
    Assoc(uid, gid + (rdev + link), rest);
    Assoc(gid, rdev + link, rest);
    Assoc(rdev, link, rest);
    FieldRoundTrip(e.uid, o.uid, f.sameUid, last.uid, gid + (rdev + (link + rest)));
    FieldRoundTrip(e.gid, o.gid, f.sameGid, last.gid, rdev + (link + rest));
    FieldRoundTrip(e.rdev, HasRdev(o, e.mode), f.sameRdev, last.rdev, link + rest);
    LinkRoundTrip(e.link, HasLink(o, e.mode), rest);
  }

  /** Whatever a writer lets the decoder inherit, the decoder recovers the entry and stops where it ends. */
  lemma EntryRoundTrip(o: Options, last: Entry, e: Entry, f: Flags, l1: byte, rest: bytes)
    requires Storable(o, e) && Inherits(o, last, e, f, l1)
    ensures ParseEntry(o, EncodeEntry(o, e, f, l1) + rest, f, last) == Ok((e, rest))
  {
    Assoc(EncodeStat(e, f, l1), EncodeExtras(o, e, f), rest);
    StatRoundTrip(o, last, e, f, l1, EncodeExtras(o, e, f) + rest);
    var stat := NO_ENTRY.(name := e.name, length := e.length, mtime := e.mtime, mode := e.mode);
    ExtrasRoundTrip(o, last, e, f, l1, stat, rest);
  }

  method ReadField(c: Conn, present: bool, same: bool, last: int32) returns (r: Result<int32>)
    modifies c`rd
    ensures match ParseField(old(c.rd), present, same, last)
            case Ok((v, rest)) => r == Ok(v) && c.rd == rest
            case Err(e) => r == Err(e)
  {
    if !present {
      return Ok(0);
    }
    if same {
      return Ok(last);
    }
    r := c.ReadInt32();
  }

  method ReadName(c: Conn, f: Flags, last: bytes) returns (r: Result<bytes>)
    modifies c`rd
    ensures match ParseName(old(c.rd), f, last)
            case Ok((v, rest)) => r == Ok(v) && c.rd == rest
            case Err(e) => r == Err(e)
  {
    var l1: byte := 0;
    if f.sameName {
      l1 :- c.ReadByte();
    }
    var l2: int32;
    if f.longName {
      l2 :- c.ReadInt32();
    } else {
      l2 :- c.ReadByte();
    }
    if l2 >= PATH_MAX - l1 {
      return Err(NameOverflow);
    }
    if l2 < 0 {
      return Err(Panic);
    }
    var n := Min(l1, |last|);
    var inherited := last[..n] + seq(l1 - n, _ => 0);
    assert inherited == Inherited(last, l1);
    var b :- c.ReadFull(l2);
    r := Ok(Clean(inherited + b));
  }

  method ReadLink(c: Conn, present: bool) returns (r: Result<bytes>)
    modifies c`rd
    ensures match ParseLink(old(c.rd), present)
            case Ok((v, rest)) => r == Ok(v) && c.rd == rest
            case Err(e) => r == Err(e)
  {
    if !present {
      return Ok([]);
    }
    var n :- c.ReadInt32();
    if n < 0 {
      return Err(Panic);
    }
    r := c.ReadFull(n);
  }

  method ReadStat(c: Conn, f: Flags, last: Entry) returns (r: Result<Entry>)
    modifies c`rd
    ensures match ParseStat(old(c.rd), f, last)
            case Ok((v, rest)) => r == Ok(v) && c.rd == rest
            case Err(e) => r == Err(e)
  {
    var name :- ReadName(c, f, last.name);
    var length :- c.ReadInt64();
    var mtime := last.mtime;
    if !f.sameTime {
      mtime :- c.ReadInt32();
    }
    var mode :- ReadField(c, true, f.sameMode, last.mode);
    r := Ok(NO_ENTRY.(name := name, length := length, mtime := mtime, mode := mode));
  }

  method ReadOwner(c: Conn, o: Options, f: Flags, last: Entry, e: Entry) returns (r: Result<Entry>)
    modifies c`rd
    ensures match ParseOwner(o, old(c.rd), f, last, e)
            case Ok((v, rest)) => r == Ok(v) && c.rd == rest
            case Err(e) => r == Err(e)
  {
    var uid :- ReadField(c, o.uid, f.sameUid, last.uid);
    var gid :- ReadField(c, o.gid, f.sameGid, last.gid);
    r := Ok(e.(uid := uid, gid := gid));
  }

  method ReadTarget(c: Conn, o: Options, f: Flags, last: Entry, e: Entry) returns (r: Result<Entry>)
    modifies c`rd
    ensures match ParseTarget(o, old(c.rd), f, last, e)
            case Ok((v, rest)) => r == Ok(v) && c.rd == rest
            case Err(e) => r == Err(e)
  {
    var rdev :- ReadField(c, HasRdev(o, e.mode), f.sameRdev, last.rdev);
    var link :- ReadLink(c, HasLink(o, e.mode));
    r := Ok(e.(rdev := rdev, link := link));
  }

  /** receiveFileEntry. */
  method ReceiveFileEntry(c: Conn, o: Options, f: Flags, last: Entry) returns (r: Result<Entry>)
    modifies c`rd
    ensures match ParseEntry(o, old(c.rd), f, last)
            case Ok((v, rest)) => r == Ok(v) && c.rd == rest
            case Err(e) => r == Err(e)
  {
    var e :- ReadStat(c, f, last);
    e :- ReadOwner(c, o, f, last, e);
    r := ReadTarget(c, o, f, last, e);
  }
}
