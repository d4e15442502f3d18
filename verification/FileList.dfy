/** rsyncsender/flist.go, rsyncreceiver/flist.go and rsyncreceiver/uidlist.go: the exchange of the file
    list, after which both sides number the files. */
module FileList {
  import opened Bytes
  import opened Wire
  import opened Names
  import opened FileEntry
  import opened FileRecord
  import opened Multiplex

  // ---------- A list of entries with inheritance ----------

  /** The entries up to the zero byte that ends the list. Each may inherit from the one before. */
  function ParseEntries(o: Options, inp: bytes, last: Entry): (r: Result<(seq<Entry>, bytes)>)
    decreases |inp|
  {
    var (b, rest) :- ParseByte(inp);
    if b == 0 then Ok(([], rest))
    else
      var (e, tail) :- ParseEntry(o, rest, FlagsOf(b), last);
      Prepend([e], ParseEntries(o, tail, e))
  }

  /** An entry as some writer chose to write it. */
  datatype Written = Written(e: Entry, f: Flags, l1: byte)

  /** Every choice is one the decoder can undo, and no status byte reads as the end of the list. */
  predicate WellWritten(o: Options, ws: seq<Written>, last: Entry) {
    ws != [] ==>
      && Storable(o, ws[0].e) && Inherits(o, last, ws[0].e, ws[0].f, ws[0].l1)
      && StatusByte(ws[0].f) != 0
      && WellWritten(o, ws[1..], ws[0].e)
  }

  function EntriesBytes(o: Options, ws: seq<Written>, last: Entry): bytes
    requires WellWritten(o, ws, last)
  {
    if ws == [] then [0]
    else [StatusByte(ws[0].f)] + (EncodeEntry(o, ws[0].e, ws[0].f, ws[0].l1) + EntriesBytes(o, ws[1..], ws[0].e))
  }

  function EntriesOf(ws: seq<Written>): seq<Entry> { if ws == [] then [] else [ws[0].e] + EntriesOf(ws[1..]) }

  /** Inheritance is invisible: however the fields were shared, the decoder recovers the same entries. */
  lemma {:induction false} InheritanceIsInvisible(o: Options, ws: seq<Written>, last: Entry, rest: bytes)
    requires WellWritten(o, ws, last)
    ensures ParseEntries(o, EntriesBytes(o, ws, last) + rest, last) == Ok((EntriesOf(ws), rest))
  {
    if ws == [] {
      ParseByteRoundTrip(0, rest);
    } else {
      var w := ws[0];
      var entry, tail := EncodeEntry(o, w.e, w.f, w.l1), EntriesBytes(o, ws[1..], w.e);
      Assoc([StatusByte(w.f)], entry + tail, rest);
      Assoc(entry, tail, rest);
      ParseByteRoundTrip(StatusByte(w.f), entry + (tail + rest));
      FlagsRoundTrip(w.f);
      EntryRoundTrip(o, last, w.e, w.f, w.l1, tail + rest);
      InheritanceIsInvisible(o, ws[1..], w.e, rest);
    }
  }

  // ---------- The sender's list ----------

  function Records(o: Options, infos: seq<FileInfo>): bytes {
    if infos == [] then []
    else [StatusByte(PlainFlags(infos[0]))] + RecordBytes(o, infos[0]) + Records(o, infos[1..])
  }

  /** The two id sets are empty, because stat.go finds no id. */
  function EndOfSets(o: Options): bytes {
    (if o.uid then Le32(0) else []) + if o.gid then Le32(0) else []
  }

  function FileListBytes(o: Options, infos: seq<FileInfo>): bytes {
    Records(o, infos) + ([0] + (EndOfSets(o) + Le32(0)))
  }

  function FilesOf(infos: seq<FileInfo>): seq<SenderFile> {
    if infos == [] then [] else [SenderFile(Name(infos[0]), infos[0].kind.Regular?)] + FilesOf(infos[1..])
  }

  /** The sender's fileList. */
  datatype SentList = SentList(files: seq<SenderFile>, totalSize: int64)

  /** The sizes, added to a total in wrapping 64-bit arithmetic. */
  function TotalFrom(total: int64, infos: seq<FileInfo>): int64
    decreases |infos|
  {
    if infos == [] then total else TotalFrom(Added(total, infos[0]), infos[1..])
  }

  function Added(total: int64, i: FileInfo): int64 { ToInt64(total + Size(i)) }

  function ListOf(infos: seq<FileInfo>): SentList { SentList(FilesOf(infos), TotalFrom(0, infos)) }

  /** The lengths of all files. */
  function SizesOf(infos: seq<FileInfo>): int {
    if infos == [] then 0 else Size(infos[0]) + SizesOf(infos[1..])
  }

  ghost predicate AllAgree(o: Options, infos: seq<FileInfo>) {
    forall k | 0 <= k < |infos| :: Agrees(o, infos[k])
  }

  function ViewsOf(o: Options, infos: seq<FileInfo>): (r: seq<Entry>)
    requires AllAgree(o, infos)
  {
    if infos == [] then [] else [ViewOf(o, infos[0])] + ViewsOf(o, infos[1..])
  }

  lemma {:induction false} RecordsUnderstood(o: Options, infos: seq<FileInfo>, last: Entry, rest: bytes)
    requires AllAgree(o, infos)
    ensures ParseEntries(o, Records(o, infos) + ([0] + rest), last) == Ok((ViewsOf(o, infos), rest))
  {
    if infos == [] {
      NothingBefore([0] + rest);
      ParseByteRoundTrip(0, rest);
    } else {
      var i := infos[0];
      var status, record, tail := StatusByte(PlainFlags(i)), RecordBytes(o, i), Records(o, infos[1..]);
      Assoc([status] + record, tail, [0] + rest);
      Assoc([status], record, tail + ([0] + rest));
      ParseByteRoundTrip(status, record + (tail + ([0] + rest)));
      FlagsRoundTrip(PlainFlags(i));
      AgreesUnderstood(o, i, last, tail + ([0] + rest));
      RecordsUnderstood(o, infos[1..], ViewOf(o, i), rest);
    }
  }

  // ---------- The id sets ----------

  datatype Mapping = Mapping(name: bytes, localId: int32)

  /** The set up to id 0, added to `m`. Both callers map an id to itself. */
  function ParseIds(inp: bytes, m: map<int32, Mapping>): (r: Result<(map<int32, Mapping>, bytes)>)
    ensures r.Ok? ==> |r.value.1| <= |inp|
    decreases |inp|
  {
    var (id, r1) :- ParseInt32(inp);
    if id == 0 then Ok((m, r1))
    else
      var (n, r2) :- ParseByte(r1);
      var (name, r3) :- ParseBytes(r2, n);
      ParseIds(r3, m[id := Mapping(name, id)])
  }

  function IdsBytes(ids: seq<(int32, bytes)>): bytes {
    if ids == [] then Le32(0)
    else Le32(ids[0].0) + ([|ids[0].1| % 256] + (ids[0].1 + IdsBytes(ids[1..])))
  }

  function Mapped(ids: seq<(int32, bytes)>, m: map<int32, Mapping>): map<int32, Mapping> {
    if ids == [] then m else Mapped(ids[1..], m[ids[0].0 := Mapping(ids[0].1, ids[0].0)])
  }

  /** A set that never names id 0, with names of at most 255 bytes, is read back as it was written. */
  lemma {:induction false} IdsRoundTrip(ids: seq<(int32, bytes)>, m: map<int32, Mapping>, rest: bytes)
    requires forall k | 0 <= k < |ids| :: ids[k].0 != 0 && |ids[k].1| < 256
    ensures ParseIds(IdsBytes(ids) + rest, m) == Ok((Mapped(ids, m), rest))
  {
    if ids == [] {
      ParseInt32RoundTrip(0, rest);
    } else {
      var (id, name) := ids[0];
      var tail := IdsBytes(ids[1..]);
      var n: byte := |name|;
      assert |name| % 256 == n;
      Assoc(Le32(id), [n] + (name + tail), rest);
      Assoc([n], name + tail, rest);
      Assoc(name, tail, rest);
      ParseInt32RoundTrip(id, [n] + (name + (tail + rest)));
      ParseByteRoundTrip(n, name + (tail + rest));
      ParseBytesRoundTrip(name, tail + rest);
      IdsRoundTrip(ids[1..], m[id := Mapping(name, id)], rest);
    }
  }

  /** recvIdMapping1. */
  method RecvIdMapping(c: Conn) returns (r: Result<map<int32, Mapping>>)
    modifies c`rd
    ensures match ParseIds(old(c.rd), map[])
            case Ok((m, rest)) => r == Ok(m) && c.rd == rest
            case Err(e) => r == Err(e)
  {
    ghost var start := c.rd;
    var idMapping: map<int32, Mapping> := map[];
    var id :- c.ReadInt32();
    while id != 0
      invariant |c.rd| <= |start|
      invariant ParseIds(start, map[]) == if id == 0 then Ok((idMapping, c.rd)) else ParseIdsFrom(c.rd, id, idMapping)
      decreases |c.rd|
    {
      var length :- c.ReadByte();
      var name :- c.ReadFull(length);
      idMapping := idMapping[id := Mapping(name, id)];
      id :- c.ReadInt32();
    }
    r := Ok(idMapping);
  }

  /** ParseIds, once the id is read. */
  function ParseIdsFrom(inp: bytes, id: int32, m: map<int32, Mapping>): Result<(map<int32, Mapping>, bytes)> {
    var (n, r2) :- ParseByte(inp);
    var (name, r3) :- ParseBytes(r2, n);
    ParseIds(r3, m[id := Mapping(name, id)])
  }

  /** The sets and the error flag after the entries. */
  function ParseEnd(o: Options, inp: bytes): Result<(int32, bytes)> {
    var (users, r1) :- if o.uid then ParseIds(inp, map[]) else Ok((map[], inp));
    var (groups, r2) :- if o.gid then ParseIds(r1, map[]) else Ok((map[], r1));
    ParseInt32(r2)
  }

  /** RecvIdList, and the error flag. */
  method ReceiveEnd(c: Conn, o: Options) returns (r: Result<int32>)
    modifies c`rd
    ensures match ParseEnd(o, old(c.rd))
            case Ok((ioErrors, rest)) => r == Ok(ioErrors) && c.rd == rest
            case Err(e) => r == Err(e)
  {
    if o.uid {
      var _ :- RecvIdMapping(c);
    }
    if o.gid {
      var _ :- RecvIdMapping(c);
    }
    r := c.ReadInt32();
  }

  lemma EndUnderstood(o: Options, rest: bytes)
    ensures ParseEnd(o, (EndOfSets(o) + Le32(0)) + rest) == Ok((0, rest))
  {
    var users: bytes, groups: bytes := if o.uid then Le32(0) else [], if o.gid then Le32(0) else [];
    var tail := Le32(0) + rest;
    Assoc(users + groups, Le32(0), rest);
    Assoc(users, groups, tail);
    NothingBefore(groups + tail);
    NothingBefore(tail);
    ParseInt32RoundTrip(0, rest);
    ParseInt32RoundTrip(0, tail);
    ParseInt32RoundTrip(0, groups + tail);
  }

  // ---------- The whole list ----------

  function ParseFileList(o: Options, inp: bytes): Result<(seq<Entry>, int32, bytes)> {
    var (entries, r1) :- ParseEntries(o, inp, NO_ENTRY);
    var (ioErrors, r2) :- ParseEnd(o, r1);
    Ok((entries, ioErrors, r2))
  }

  /** The list of agreeing files is read as their entries, in the order sent, up to its last byte. */
  lemma FileListRoundTrip(o: Options, infos: seq<FileInfo>, rest: bytes)
    requires AllAgree(o, infos)
    ensures ParseFileList(o, FileListBytes(o, infos) + rest) == Ok((ViewsOf(o, infos), 0, rest))
  {
    var end := EndOfSets(o) + Le32(0);
    Assoc(Records(o, infos), [0] + end, rest);
    Assoc([0], end, rest);
    RecordsUnderstood(o, infos, NO_ENTRY, end + rest);
    EndUnderstood(o, rest);
  }

  /** ReceiveFileList. */
  method ReceiveFileList(c: Conn, o: Options) returns (r: Result<(seq<Entry>, int32)>)
    modifies c`rd
    ensures match ParseFileList(o, old(c.rd))
            case Ok((entries, ioErrors, rest)) =>
              && r.Ok? && r.value.1 == ioErrors && c.rd == rest
              && NamesOrdered(NameOf, r.value.0) && multiset(r.value.0) == multiset(entries)
            case Err(e) => r == Err(e)
  {
    var fileList :- ReceiveEntries(c, o);
    var sorted := SortByName(NameOf, fileList);
    var ioErrors :- ReceiveEnd(c, o);
    r := Ok((sorted, ioErrors));
  }

  /** Its loop. */
  method ReceiveEntries(c: Conn, o: Options) returns (r: Result<seq<Entry>>)
    modifies c`rd
    ensures match ParseEntries(o, old(c.rd), NO_ENTRY)
            case Ok((entries, rest)) => r == Ok(entries) && c.rd == rest
            case Err(e) => r == Err(e)
  {
    ghost var start := c.rd;
    var fileList: seq<Entry> := [];
    var lastFileEntry := NO_ENTRY;
    PrependStart(ParseEntries(o, start, NO_ENTRY));
    var b :- c.ReadByte();
    while b != 0
      invariant ParseEntries(o, start, NO_ENTRY)
             == Prepend(fileList, if b == 0 then Ok(([], c.rd)) else ParseEntriesFrom(o, c.rd, b, lastFileEntry))
      decreases |c.rd|
    {
      var f :- ReceiveFileEntry(c, o, FlagsOf(b), lastFileEntry);
      PrependStep(fileList, f, ParseEntries(o, c.rd, f));
      lastFileEntry := f;
      fileList := fileList + [f];
      b :- c.ReadByte();
    }
    NothingMore(fileList);
    r := Ok(fileList);
  }

  /** ParseEntries, once the status byte is read. */
  function ParseEntriesFrom(o: Options, inp: bytes, b: byte, last: Entry): Result<(seq<Entry>, bytes)> {
    var (e, tail) :- ParseEntry(o, inp, FlagsOf(b), last);
    Prepend([e], ParseEntries(o, tail, e))
  }

  // ---------- Writing the list ----------

  /** The files the filter lets through. */
  function Kept(excluded: bytes -> bool, infos: seq<FileInfo>): seq<FileInfo> {
    if infos == [] then []
    else (if excluded(Name(infos[0])) then [] else [infos[0]]) + Kept(excluded, infos[1..])
  }

  /** The error a requested path ends with: that of the last checksum it tried to compute. */
  predicate LastSumFailed(o: Options, infos: seq<FileInfo>) {
    infos != [] &&
      var i := infos[|infos| - 1];
      if o.checksum && i.kind.Regular? then i.sum.None? else LastSumFailed(o, infos[..|infos| - 1])
  }

  lemma {:induction false} KeptAppend(excluded: bytes -> bool, a: seq<FileInfo>, b: seq<FileInfo>)
    ensures Kept(excluded, a + b) == Kept(excluded, a) + Kept(excluded, b)
  {
    if a == [] {
      NothingBefore(b);
      NothingBefore(Kept(excluded, b));
    } else {
      assert (a + b)[1..] == a[1..] + b;
      KeptAppend(excluded, a[1..], b);
    }
  }

  lemma {:induction false} RecordsAppend(o: Options, a: seq<FileInfo>, b: seq<FileInfo>)
    ensures Records(o, a + b) == Records(o, a) + Records(o, b)
  {
    if a == [] {
      NothingBefore(b);
      NothingBefore(Records(o, b));
    } else {
      assert (a + b)[1..] == a[1..] + b;
      RecordsAppend(o, a[1..], b);
      Assoc([StatusByte(PlainFlags(a[0]))] + RecordBytes(o, a[0]), Records(o, a[1..]), Records(o, b));
    }
  }

  lemma {:induction false} FilesAppend(a: seq<FileInfo>, b: seq<FileInfo>)
    ensures FilesOf(a + b) == FilesOf(a) + FilesOf(b)
  {
    if a == [] {
      NothingBefore(b);
      NothingBefore(FilesOf(b));
    } else {
      assert (a + b)[1..] == a[1..] + b;
      FilesAppend(a[1..], b);
    }
  }

  lemma {:induction false} TotalAppend(total: int64, a: seq<FileInfo>, b: seq<FileInfo>)
    ensures TotalFrom(total, a + b) == TotalFrom(TotalFrom(total, a), b)
    decreases |a|
  {
    if a == [] {
      NothingBefore(b);
    } else {
      assert (a + b)[0] == a[0] && (a + b)[1..] == a[1..] + b;
      TotalAppend(Added(total, a[0]), a[1..], b);
    }
  }

  lemma TotalSnoc(total: int64, a: seq<FileInfo>, i: FileInfo)
    ensures TotalFrom(total, a + [i]) == Added(TotalFrom(total, a), i)
  {
    TotalAppend(total, a, [i]);
    assert [i][1..] == [];
  }

  lemma KeptStep(excluded: bytes -> bool, infos: seq<FileInfo>, k: nat)
    requires k < |infos|
    ensures Kept(excluded, infos[..k + 1])
         == if excluded(Name(infos[k])) then Kept(excluded, infos[..k]) else Kept(excluded, infos[..k]) + [infos[k]]
  {
    var i := infos[k];
    assert infos[..k + 1] == infos[..k] + [i];
    KeptAppend(excluded, infos[..k], [i]);
    NothingMore(Kept(excluded, infos[..k]));
    assert Kept(excluded, [i]) == if excluded(Name(i)) then [] else [i];
  }

  lemma OneMore(buf: bytes, o: Options, kept: seq<FileInfo>, i: FileInfo)
    ensures (buf + Records(o, kept)) + Records(o, [i]) == buf + Records(o, kept + [i])
    ensures FilesOf(kept + [i]) == FilesOf(kept) + [SenderFile(Name(i), i.kind.Regular?)]
    ensures LastSumFailed(o, kept + [i])
         == if o.checksum && i.kind.Regular? then i.sum.None? else LastSumFailed(o, kept)
  {
    Assoc(buf, Records(o, kept), Records(o, [i]));
    RecordsAppend(o, kept, [i]);
    FilesAppend(kept, [i]);
    RecordsOfOne(o, i);
    assert (kept + [i])[..|kept|] == kept;
  }

  lemma RecordsOfOne(o: Options, i: FileInfo)
    ensures Records(o, [i]) == [StatusByte(PlainFlags(i))] + RecordBytes(o, i)
    ensures FilesOf([i]) == [SenderFile(Name(i), i.kind.Regular?)]
  {
    NothingMore([StatusByte(PlainFlags(i))] + RecordBytes(o, i));
  }

  /** rsyncwire.Buffer. */
  class Buffer {
    var buf: bytes

    constructor ()
      ensures buf == []
    {
      buf := [];
    }

    method WriteByte(data: byte)
      modifies this
      ensures buf == old(buf) + [data]
    {
      buf := buf + [data];
    }

    method WriteInt32(data: int32)
      modifies this
      ensures buf == old(buf) + Le32(data)
    {
      buf := buf + Le32(data);
    }

    method WriteInt64(data: int64)
      modifies this
      ensures buf == old(buf) + EncodeInt64(data)
    {
      if data <= 0x7FFF_FFFF && data >= 0 {
        WriteInt32(data);
        return;
      }
      WriteInt32(-1);
      ghost var half := buf;
      buf := buf + Le64(data);
      Assoc(old(buf), Le32(-1), Le64(data));
    }

    method WriteString(data: bytes)
      modifies this
      ensures buf == old(buf) + data
    {
      buf := buf + data;
    }
  }

  /** Items 1 to 7 of a record; returns item 5. */
  method WriteStat(fec: Buffer, i: FileInfo) returns (size: int64)
    modifies fec
    ensures fec.buf == old(fec.buf) + ([StatusByte(PlainFlags(i))] + StatBytes(i)) && size == Size(i)
  {
    var flags: byte := XMIT_LONG_NAME;
    var name := i.name;
    if name == SLASH {
      name := DOT;
      flags := flags + XMIT_TOP_DIR;
    }
    PlainStatus(i);
    fec.WriteByte(flags);
    Le32OfInt32(|name|);
    fec.WriteInt32(ToInt32(|name|));
    fec.WriteString(name);
    size := i.size;
    if i.kind.Directory? {
      size := 4096;
    }
    fec.WriteInt64(size);
    Le32OfInt32(i.mtime);
    fec.WriteInt32(ToInt32(i.mtime));
    var mode := ModeOf(i);
    fec.WriteInt32(mode);
    StatAssembled(old(fec.buf), i);
  }

  /** Item 7: the permissions and one type. */
  method ModeOf(i: FileInfo) returns (mode: int32)
    ensures mode == Mode(i)
  {
    mode := i.perm;
    if i.kind.Directory? {
      mode := mode + S_IFDIR;
    } else if i.kind.Regular? {
      mode := mode + S_IFREG;
    } else if i.kind.Symlink? {
      mode := mode + S_IFLNK;
    }
    if i.kind.CharDevice? {
      mode := mode + S_IFCHR;
    } else if i.kind.BlockDevice? {
      mode := mode + S_IFBLK;
    }
    if i.kind.NamedPipe? {
      mode := mode + S_IFIFO;
    }
    if i.kind.Socket? {
      mode := mode + S_IFSOCK;
    }
  }

  lemma StatAssembled(buf: bytes, i: FileInfo)
    ensures buf + [StatusByte(PlainFlags(i))] + Le32(|Name(i)|) + Name(i) + EncodeInt64(Size(i)) + Le32(i.mtime)
              + Le32(Mode(i))
         == buf + ([StatusByte(PlainFlags(i))] + StatBytes(i))
  {
    var s, l, n := [StatusByte(PlainFlags(i))], Le32(|Name(i)|), Name(i);
    var size, time, mode := EncodeInt64(Size(i)), Le32(i.mtime), Le32(Mode(i));
    Assoc(buf + s, l, n);
    Assoc(buf + s + (l + n) + size, time, mode);
    Assoc(buf + s + (l + n), size, time + mode);
    Assoc(buf + s, l + n, size + (time + mode));
    Assoc(buf, s, StatBytes(i));
  }

  /** Items 8 to 10. */
  method WriteIds(fec: Buffer, o: Options, i: FileInfo)
    modifies fec
    ensures fec.buf == old(fec.buf) + (IdBytes(o.uid) + (IdBytes(o.gid) + RdevBytes(o, i)))
  {
    if o.uid {
      fec.WriteInt32(STAT_ID);
    } else {
      NothingMore(fec.buf);
    }
    if o.gid {
      fec.WriteInt32(STAT_ID);
    } else {
      NothingMore(fec.buf);
    }
    var isDev := i.kind.CharDevice? || i.kind.BlockDevice?;
    var isSpecial := i.kind.NamedPipe? || i.kind.Socket?;
    if (o.devices && isDev) || (o.specials && isSpecial) {
      fec.WriteInt32(STAT_ID);
    } else {
      NothingMore(fec.buf);
    }
    Assoc(old(fec.buf) + IdBytes(o.uid), IdBytes(o.gid), RdevBytes(o, i));
    Assoc(old(fec.buf), IdBytes(o.uid), IdBytes(o.gid) + RdevBytes(o, i));
  }

  /** Items 11 and 12 and the checksum. `err` is the error variable of the traversal. */
  method WriteTail(fec: Buffer, o: Options, i: FileInfo, err: bool) returns (err': bool)
    modifies fec
    ensures fec.buf == old(fec.buf) + (LinkBytes(o, i) + SumBytes(o, i))
    ensures err' == if o.checksum && i.kind.Regular? then i.sum.None? else err
  {
    err' := err;
    if o.links && i.kind.Symlink? {
      if i.target.None? {
        NothingMore(fec.buf);
        return;
      }
      var target := i.target.value;
      Le32OfInt32(|target|);
      fec.WriteInt32(ToInt32(|target|));
      fec.WriteString(target);
      Assoc(old(fec.buf), Le32(|target|), target);
    } else {
      NothingMore(fec.buf);
    }
    if o.checksum {
      var checksum: bytes := seq(16, _ => 0);
      if i.kind.Regular? {
        err' := i.sum.None?;
        if err' {
          NothingMore(LinkBytes(o, i));
          return;
        }
        checksum := i.sum.value;
      }
      fec.WriteString(checksum);
    } else {
      NothingMore(fec.buf);
    }
    Assoc(old(fec.buf), LinkBytes(o, i), SumBytes(o, i));
  }

  method WriteRecord(fec: Buffer, o: Options, i: FileInfo, err: bool) returns (err': bool, size: int64)
    modifies fec
    ensures fec.buf == old(fec.buf) + Records(o, [i]) && size == Size(i)
    ensures err' == if o.checksum && i.kind.Regular? then i.sum.None? else err
  {
    size := WriteStat(fec, i);
    WriteIds(fec, o, i);
    err' := WriteTail(fec, o, i, err);
    RecordAssembled(old(fec.buf), o, i);
  }

  lemma RecordAssembled(buf: bytes, o: Options, i: FileInfo)
    ensures buf + ([StatusByte(PlainFlags(i))] + StatBytes(i)) + (IdBytes(o.uid) + (IdBytes(o.gid) + RdevBytes(o, i)))
              + (LinkBytes(o, i) + SumBytes(o, i))
         == buf + Records(o, [i])
  {
    var s, stat, uid, gid := [StatusByte(PlainFlags(i))], StatBytes(i), IdBytes(o.uid), IdBytes(o.gid);
    var rdev, tail := RdevBytes(o, i), LinkBytes(o, i) + SumBytes(o, i);
    Assoc(buf + (s + stat), uid + (gid + rdev), tail);
    Assoc(uid, gid + rdev, tail);
    Assoc(gid, rdev, tail);
    Assoc(buf, s + stat, uid + (gid + (rdev + tail)));
    Assoc(s, stat, uid + (gid + (rdev + tail)));
    RecordsOfOne(o, i);
  }

  /** fileList.TotalSize += size. */
  method AddSize(total: int64, ghost i: FileInfo, size: int64) returns (total': int64)
    requires size == Size(i)
    ensures total' == Added(total, i)
  {
    total' := ToInt64(total + size);
  }

  /** One turn of the traversal, after the files in `kept`, with the total size so far. */
  method WriteFile(fec: Buffer, o: Options, i: FileInfo, files: seq<SenderFile>, err: bool, total: int64,
                   ghost kept: seq<FileInfo>)
    returns (files': seq<SenderFile>, err': bool, total': int64)
    requires files == FilesOf(kept) && err == LastSumFailed(o, kept)
    modifies fec
    ensures fec.buf == old(fec.buf) + Records(o, [i])
    ensures files' == FilesOf(kept + [i]) && err' == LastSumFailed(o, kept + [i])
    ensures total' == Added(total, i)
  {
    var name := if i.name == SLASH then DOT else i.name;
    files' := files + [SenderFile(name, i.kind.Regular?)];
    var size;
    err', size := WriteRecord(fec, o, i, err);
    total' := AddSize(total, i, size);
    OneMore(fec.buf, o, kept, i);
  }

  /** The loop over the files of one requested path. */
  method WriteListing(fec: Buffer, o: Options, excluded: bytes -> bool, infos: seq<FileInfo>, total: int64)
    returns (files: seq<SenderFile>, err: bool, total': int64)
    modifies fec
    ensures fec.buf == old(fec.buf) + Records(o, Kept(excluded, infos))
    ensures files == FilesOf(Kept(excluded, infos))
    ensures err == LastSumFailed(o, Kept(excluded, infos))
    ensures total' == TotalFrom(total, Kept(excluded, infos))
  {
    files, err, total' := [], false, total;
    ghost var kept: seq<FileInfo> := [];
    NothingMore(fec.buf);
    var k := 0;
    while k < |infos|
      invariant 0 <= k <= |infos| && kept == Kept(excluded, infos[..k])
      invariant fec.buf == old(fec.buf) + Records(o, kept)
      invariant files == FilesOf(kept) && err == LastSumFailed(o, kept)
      invariant total' == TotalFrom(total, kept)
    {
      KeptStep(excluded, infos, k);
      var name := if infos[k].name == SLASH then DOT else infos[k].name;
      if !excluded(name) {
        files, err, total' := WriteFile(fec, o, infos[k], files, err, total', kept);
        OneMore(old(fec.buf), o, kept, infos[k]);
        TotalSnoc(total, kept, infos[k]);
        kept := kept + [infos[k]];
      }
      k := k + 1;
    }
    assert infos[..k] == infos;
  }

  function KeptOfAll(excluded: bytes -> bool, listings: seq<seq<FileInfo>>): seq<FileInfo> {
    if listings == [] then []
    else KeptOfAll(excluded, listings[..|listings| - 1]) + Kept(excluded, listings[|listings| - 1])
  }

  /** Some requested path ends with an error. */
  predicate SomePathFails(o: Options, excluded: bytes -> bool, listings: seq<seq<FileInfo>>) {
    listings != [] &&
      (SomePathFails(o, excluded, listings[..|listings| - 1])
       || LastSumFailed(o, Kept(excluded, listings[|listings| - 1])))
  }

  lemma {:induction false} FailureStays(o: Options, excluded: bytes -> bool, listings: seq<seq<FileInfo>>, p: nat)
    requires p <= |listings| && SomePathFails(o, excluded, listings[..p])
    ensures SomePathFails(o, excluded, listings)
    decreases |listings|
  {
    if p < |listings| {
      assert listings[..|listings| - 1][..p] == listings[..p];
      FailureStays(o, excluded, listings[..|listings| - 1], p);
    } else {
      assert listings[..p] == listings;
    }
  }

  lemma ListingStep(o: Options, excluded: bytes -> bool, listings: seq<seq<FileInfo>>, p: nat)
    requires p < |listings|
    ensures KeptOfAll(excluded, listings[..p + 1]) == KeptOfAll(excluded, listings[..p]) + Kept(excluded, listings[p])
    ensures SomePathFails(o, excluded, listings[..p + 1])
       <==> SomePathFails(o, excluded, listings[..p]) || LastSumFailed(o, Kept(excluded, listings[p]))
  {
    assert listings[..p + 1][..p] == listings[..p];
  }

  lemma ManyMore(buf: bytes, o: Options, kept: seq<FileInfo>, now: seq<FileInfo>)
    ensures (buf + Records(o, kept)) + Records(o, now) == buf + Records(o, kept + now)
    ensures FilesOf(kept) + FilesOf(now) == FilesOf(kept + now)
  {
    Assoc(buf, Records(o, kept), Records(o, now));
    RecordsAppend(o, kept, now);
    FilesAppend(kept, now);
  }

  /** The list ends, then come the two sets, which are empty, and the error flag, which is 0. */
  method WriteEnd(fec: Buffer, o: Options)
    modifies fec
    ensures fec.buf == old(fec.buf) + ([0] + (EndOfSets(o) + Le32(0)))
  {
    fec.WriteByte(0);
    if o.uid {
      fec.WriteInt32(0);
    } else {
      NothingMore(fec.buf);
    }
    if o.gid {
      fec.WriteInt32(0);
    } else {
      NothingMore(fec.buf);
    }
    fec.WriteInt32(0);
    var users: bytes, groups: bytes := if o.uid then Le32(0) else [], if o.gid then Le32(0) else [];
    Assoc(old(fec.buf) + [0], users, groups);
    Assoc(old(fec.buf) + [0], users + groups, Le32(0));
    Assoc(old(fec.buf), [0], (users + groups) + Le32(0));
  }

  /** The loop over the requested paths; it stops at the first that ends with an error. */
  method WritePaths(fec: Buffer, o: Options, excluded: bytes -> bool, listings: seq<seq<FileInfo>>)
    returns (fileList: SentList, err: bool)
    modifies fec
    ensures err <==> SomePathFails(o, excluded, listings)
    ensures !err ==> fec.buf == old(fec.buf) + Records(o, KeptOfAll(excluded, listings))
    ensures !err ==> fileList == ListOf(KeptOfAll(excluded, listings))
  {
    var all: seq<SenderFile>, total: int64 := [], 0;
    ghost var kept: seq<FileInfo> := [];
    NothingMore(fec.buf);
    var p := 0;
    while p < |listings|
      invariant 0 <= p <= |listings|
      invariant !SomePathFails(o, excluded, listings[..p])
      invariant kept == KeptOfAll(excluded, listings[..p])
      invariant fec.buf == old(fec.buf) + Records(o, kept)
      invariant all == FilesOf(kept) && total == TotalFrom(0, kept)
    {
      var files, failed, total' := WriteListing(fec, o, excluded, listings[p], total);
      ListingStep(o, excluded, listings, p);
      if failed {
        FailureStays(o, excluded, listings, p + 1);
        return SentList(all, total), true;
      }
      ManyMore(old(fec.buf), o, kept, Kept(excluded, listings[p]));
      TotalAppend(0, kept, Kept(excluded, listings[p]));
      all, total, kept := all + files, total', kept + Kept(excluded, listings[p]);
      p := p + 1;
    }
    assert listings[..p] == listings;
    fileList, err := SentList(all, total), false;
  }

  /** SendFileList. Nothing is written unless the whole list could be built. */
  method SendFileList(c: Conn, o: Options, excluded: bytes -> bool, listings: seq<seq<FileInfo>>)
    returns (r: Result<SentList>)
    modifies c`wr, c`writes
    ensures r.Ok? ==> c.writes == old(c.writes) + [FileListBytes(o, KeptOfAll(excluded, listings))]
    ensures r.Err? <==> SomePathFails(o, excluded, listings)
    ensures r.Err? ==> r.error == FileUnreadable && c.wr == old(c.wr)
    ensures r.Ok? ==> r.value == ListOf(KeptOfAll(excluded, listings))
    ensures r.Ok? ==> c.wr == old(c.wr) + FileListBytes(o, KeptOfAll(excluded, listings))
  {
    var fec := new Buffer();
    var fileList, err := WritePaths(fec, o, excluded, listings);
    if err {
      return Err(FileUnreadable);
    }
    NothingBefore(Records(o, KeptOfAll(excluded, listings)));
    WriteEnd(fec, o);
    c.Write(fec.buf);
    r := Ok(fileList);
  }

  function LengthsOf(entries: seq<Entry>): int {
    if entries == [] then 0 else entries[0].length + LengthsOf(entries[1..])
  }

  lemma {:induction false} LengthsRemove(entries: seq<Entry>, k: nat)
    requires k < |entries|
    ensures LengthsOf(entries) == entries[k].length + LengthsOf(entries[..k] + entries[k + 1..])
  {
    if k == 0 {
      NothingBefore(entries[1..]);
    } else {
      LengthsRemove(entries[1..], k - 1);
      var rest := entries[..k] + entries[k + 1..];
      assert rest[1..] == entries[1..][..k - 1] + entries[1..][k..];
    }
  }

  lemma {:induction false} LengthsPermuted(xs: seq<Entry>, ys: seq<Entry>)
    requires multiset(xs) == multiset(ys)
    ensures LengthsOf(xs) == LengthsOf(ys)
    decreases |xs|
  {
    SameLength(xs, ys);
    if xs != [] {
      assert xs[0] in multiset(ys);
      var k :| 0 <= k < |ys| && ys[k] == xs[0];
      TailCounts(xs);
      RemoveCounts(ys, k);
      LengthsPermuted(xs[1..], ys[..k] + ys[k + 1..]);
      LengthsRemove(ys, k);
    }
  }

  lemma {:induction false} LengthsAreSizes(o: Options, infos: seq<FileInfo>)
    requires AllAgree(o, infos)
    ensures LengthsOf(ViewsOf(o, infos)) == SizesOf(infos)
  {
    if infos != [] {
      LengthsAreSizes(o, infos[1..]);
    }
  }

  lemma {:induction false} TotalIs(total: int64, infos: seq<FileInfo>)
    ensures TotalFrom(total, infos) == ToInt64(total + SizesOf(infos))
    decreases |infos|
  {
    if infos != [] {
      TotalIs(Added(total, infos[0]), infos[1..]);
      WrappedSum(total + Size(infos[0]), SizesOf(infos[1..]));
    }
  }

  /** The total that the sender reports is that of the lengths that the receiver has, modulo 2^64. */
  lemma TotalAgrees(o: Options, infos: seq<FileInfo>, received: seq<Entry>)
    requires AllAgree(o, infos) && multiset(received) == multiset(ViewsOf(o, infos))
    ensures (ListOf(infos).totalSize - LengthsOf(received)) % 0x1_0000_0000_0000_0000 == 0
  {
    LengthsPermuted(received, ViewsOf(o, infos));
    LengthsAreSizes(o, infos);
    TotalIsSizes(infos);
  }

  lemma TotalIsSizes(infos: seq<FileInfo>)
    ensures (TotalFrom(0, infos) - SizesOf(infos)) % 0x1_0000_0000_0000_0000 == 0
  {
    TotalIs(0, infos);
    CongruentInt64(SizesOf(infos));
  }

  // ---------- The list as one message ----------

  /** The list goes out in a single write, so a multiplexed one is understood if and only if it is within
      the limit of a message; if it is longer, but its length still has 24 bits, the reader says so. */
  lemma ListInOneMessage(o: Options, infos: seq<FileInfo>, rest: bytes)
    requires AllAgree(o, infos)
    ensures var list := FileListBytes(o, infos);
      var r := Parse(Encode(Message(MSG_DATA, list)) + rest);
      && (|list| <= 0x4_0000 <==>
            r.Ok? && r.value == (Message(MSG_DATA, list), rest)
            && ParseFileList(o, r.value.0.payload) == Ok((ViewsOf(o, infos), 0, [])))
      && (MAX_MESSAGE_SIZE < |list| < TWO_TO_THE_24 ==> r == Err(MessageTooLong))
  {
    var list := FileListBytes(o, infos);
    MessageRoundTrip(Message(MSG_DATA, list), rest);
    LongMessage(Message(MSG_DATA, list), rest);
    FileListRoundTrip(o, infos, []);
    NothingMore(list);
  }

  // ---------- Both sides number the files alike ----------

  lemma {:induction false} SameNames(o: Options, infos: seq<FileInfo>)
    requires AllAgree(o, infos)
    ensures KeysOf(WPathOf, FilesOf(infos)) == KeysOf(NameOf, ViewsOf(o, infos))
  {
    if infos != [] {
      SameNames(o, infos[1..]);
      assert KeysOf(WPathOf, FilesOf(infos)) == [Name(infos[0])] + KeysOf(WPathOf, FilesOf(infos[1..]));
      assert KeysOf(NameOf, ViewsOf(o, infos)) == [Name(infos[0])] + KeysOf(NameOf, ViewsOf(o, infos[1..]));
    }
  }

  /** However each side's sort breaks ties, index k names the same file on both, also among duplicates. */
  lemma IndexAgreement(o: Options, infos: seq<FileInfo>, sent: seq<SenderFile>, received: seq<Entry>)
    requires AllAgree(o, infos)
    requires NamesOrdered(WPathOf, sent) && multiset(sent) == multiset(FilesOf(infos))
    requires NamesOrdered(NameOf, received) && multiset(received) == multiset(ViewsOf(o, infos))
    ensures |sent| == |received|
    ensures forall k | 0 <= k < |sent| :: sent[k].wpath == received[k].name
  {
    KeysPermuted(WPathOf, sent, FilesOf(infos));
    KeysPermuted(NameOf, received, ViewsOf(o, infos));
    SameNames(o, infos);
    OrderedNamesAgree(WPathOf, sent, NameOf, received);
    assert |KeysOf(WPathOf, sent)| == |sent| && |KeysOf(NameOf, received)| == |received|;
    forall k | 0 <= k < |sent| ensures sent[k].wpath == received[k].name {
      assert KeysOf(WPathOf, sent)[k] == WPathOf(sent[k]) && KeysOf(NameOf, received)[k] == NameOf(received[k]);
    }
  }

  /** Every file that is sent has an entry, and every entry is that of a file. */
  ghost predicate AllListed(infos: seq<FileInfo>, received: seq<Entry>) {
    && |received| == |infos|
    && (forall i {:trigger HasEntry(infos[i], received)} | 0 <= i < |infos| :: HasEntry(infos[i], received))
    && (forall k {:trigger HasFile(received[k], infos)} | 0 <= k < |received| :: HasFile(received[k], infos))
  }

  ghost predicate HasEntry(i: FileInfo, received: seq<Entry>) {
    exists k :: 0 <= k < |received| && ListedAs(i, received[k])
  }

  ghost predicate HasFile(e: Entry, infos: seq<FileInfo>) {
    exists i :: 0 <= i < |infos| && ListedAs(infos[i], e)
  }

  lemma {:induction false} ViewsAt(o: Options, infos: seq<FileInfo>, j: nat)
    requires AllAgree(o, infos) && j < |infos|
    ensures |ViewsOf(o, infos)| == |infos| && ViewsOf(o, infos)[j] == ViewOf(o, infos[j])
    ensures ListedAs(infos[j], ViewsOf(o, infos)[j])
    decreases |infos|
  {
    ViewStorable(o, infos[j]);
    if |infos| > 1 {
      ViewsAt(o, infos[1..], if j == 0 then 0 else j - 1);
    }
  }

  lemma {:induction false} ViewsLength(o: Options, infos: seq<FileInfo>)
    requires AllAgree(o, infos)
    ensures |ViewsOf(o, infos)| == |infos|
  {
    if infos != [] {
      ViewsLength(o, infos[1..]);
    }
  }

  lemma ViewsListed(o: Options, infos: seq<FileInfo>, received: seq<Entry>)
    requires AllAgree(o, infos) && multiset(received) == multiset(ViewsOf(o, infos))
    ensures AllListed(infos, received)
  {
    ViewsLength(o, infos);
    SameLength(received, ViewsOf(o, infos));
    forall i | 0 <= i < |infos| ensures HasEntry(infos[i], received) {
      var k := EntryFor(o, infos, received, i);
    }
    forall k | 0 <= k < |received| ensures HasFile(received[k], infos) {
      var i := FileFor(o, infos, received, k);
    }
  }

  lemma EntryFor(o: Options, infos: seq<FileInfo>, received: seq<Entry>, i: nat) returns (k: nat)
    requires AllAgree(o, infos) && multiset(received) == multiset(ViewsOf(o, infos)) && i < |infos|
    ensures k < |received| && received[k] == ViewOf(o, infos[i]) && ListedAs(infos[i], received[k])
  {
    ViewsAt(o, infos, i);
    k := ElementOf(ViewsOf(o, infos), received, i);
  }

  lemma FileFor(o: Options, infos: seq<FileInfo>, received: seq<Entry>, k: nat) returns (i: nat)
    requires AllAgree(o, infos) && multiset(received) == multiset(ViewsOf(o, infos)) && k < |received|
    ensures i < |infos| && received[k] == ViewOf(o, infos[i]) && ListedAs(infos[i], received[k])
  {
    i := ElementOf(received, ViewsOf(o, infos), k);
    ViewsLength(o, infos);
    ViewsAt(o, infos, i);
  }

  /** The list goes through, unless it is multiplexed and longer than a message. */
  predicate ListFits(o: Options, infos: seq<FileInfo>, senderServes: bool) {
    senderServes ==> |FileListBytes(o, infos)| <= MAX_MESSAGE_SIZE
  }

  /** It is, and a message header can still tell its length. */
  predicate ListTooLong(o: Options, infos: seq<FileInfo>, senderServes: bool) {
    !ListFits(o, infos, senderServes) && |FileListBytes(o, infos)| < 0x100_0000
  }

  /** The exchange up to the first index: the list is sent and both sides sort it (do.go lines 31-33,
      utils/file.go lines 55-59). Whatever the receiver reads next is what was sent after the list. A
      serving sender's list is one message, and is understood if it is within the limit. */
  method ExchangeFileList(o: Options, excluded: bytes -> bool, listings: seq<seq<FileInfo>>, senderServes: bool,
                          next: bytes)
    returns (r: Result<(seq<SenderFile>, seq<Entry>)>, left: bytes)
    requires AllAgree(o, KeptOfAll(excluded, listings))
    ensures SomePathFails(o, excluded, listings) ==> r == Err(FileUnreadable)
    ensures ListTooLong(o, KeptOfAll(excluded, listings), senderServes) && !SomePathFails(o, excluded, listings) ==>
      r == Err(MessageTooLong)
    ensures ListFits(o, KeptOfAll(excluded, listings), senderServes) ==>
      (r.Ok? <==> !SomePathFails(o, excluded, listings))
    ensures r.Ok? && ListFits(o, KeptOfAll(excluded, listings), senderServes) ==>
      && |r.value.0| == |r.value.1|
      && (forall k | 0 <= k < |r.value.0| :: r.value.0[k].wpath == r.value.1[k].name)
      && multiset(r.value.1) == multiset(ViewsOf(o, KeptOfAll(excluded, listings))) && left == next
      && AllListed(KeptOfAll(excluded, listings), r.value.1)
  {
    ghost var infos := KeptOfAll(excluded, listings);
    left := [];
    var snd := new Conn([]);
    var fileList :- SendFileList(snd, o, excluded, listings);
    var sent := SortByName(WPathOf, fileList.files);
    NothingBefore(FileListBytes(o, infos));
    var stream := snd.wr;
    if senderServes {
      ListStream(FileListBytes(o, infos));
      NothingBefore([FileListBytes(o, infos)]);
      stream :- ReadStream(Framed(snd.writes), MAX_MESSAGE_SIZE);
    }
    var rcv := new Conn(stream + next);
    FileListRoundTrip(o, infos, next);
    var list :- ReceiveFileList(rcv, o);
    if stream == FileListBytes(o, infos) {
      IndexAgreement(o, infos, sent, list.0);
      ViewsListed(o, infos, list.0);
    }
    left := rcv.rd;
    r := Ok((sent, list.0));
  }

  lemma ListStream(list: bytes)
    ensures |list| <= MAX_MESSAGE_SIZE ==> ReadStream(Framed([list]), MAX_MESSAGE_SIZE) == Ok(list)
    ensures MAX_MESSAGE_SIZE < |list| < TWO_TO_THE_24 ==>
      ReadStream(Framed([list]), MAX_MESSAGE_SIZE) == Err(MessageTooLong)
  {
    LongMessage(Message(MSG_DATA, list), Framed([list][1..]));
    if |list| <= MAX_MESSAGE_SIZE {
      StreamSurvives([list], MAX_MESSAGE_SIZE);
      assert [list][1..] == [];
      NothingMore(list);
    }
  }
}
