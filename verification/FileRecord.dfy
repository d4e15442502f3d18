/** rsyncsender/flist.go: the record the sender writes for a file, and exactly when the receiver's decoder
    understands it. */
module FileRecord {
  import opened Bytes
  import opened Wire
  import opened FileEntry

  // ---------- What the sender lists ----------

  datatype Kind = Directory | Regular | Symlink | CharDevice | BlockDevice | NamedPipe | Socket | Irregular

  type perm = p: int | 0 <= p < 0x200

  type sum16 = s: bytes | |s| == 16 witness seq(16, _ => 0)

  /** fs.FileInfo, the answer of os.Readlink and that of FileChecksum. */
  datatype FileInfo = FileInfo(name: bytes, kind: Kind, perm: perm, size: int64, mtime: int,
                               target: Option<bytes>, sum: Option<sum16>)

  /** utils.SenderFile without `Path`, which is always "/". */
  datatype SenderFile = SenderFile(wpath: bytes, regular: bool)

  function WPathOf(f: SenderFile): bytes { f.wpath }

  function NameOf(e: Entry): bytes { e.name }

  function Name(i: FileInfo): bytes { if i.name == SLASH then DOT else i.name }

  function Size(i: FileInfo): int64 { if i.kind.Directory? then 4096 else i.size }

  function TypeBits(k: Kind): int {
    match k
    case Directory => S_IFDIR
    case Regular => S_IFREG
    case Symlink => S_IFLNK
    case CharDevice => S_IFCHR
    case BlockDevice => S_IFBLK
    case NamedPipe => S_IFIFO
    case Socket => S_IFSOCK
    case Irregular => 0
  }

  function Mode(i: FileInfo): int32 { i.perm + TypeBits(i.kind) }

  lemma FormatOfMode(i: FileInfo)
    ensures Format(Mode(i)) == TypeBits(i.kind)
  {
    var q := TypeBits(i.kind) / 0x1000;
    assert Mode(i) == i.perm + 0x1000 * q && Mode(i) % 0x1_0000 == Mode(i);
    assert Mode(i) / 0x1000 == q;
  }

  predicate DeviceFile(k: Kind) { k.CharDevice? || k.BlockDevice? }

  predicate SpecialFile(k: Kind) { k.NamedPipe? || k.Socket? }

  /** The flags of a record: long names only, and XMIT_TOP_DIR for the root. */
  function PlainFlags(i: FileInfo): Flags {
    Flags(i.name == SLASH, false, false, false, false, false, true, false)
  }

  /** Its status byte. */
  lemma PlainStatus(i: FileInfo)
    ensures StatusByte(PlainFlags(i)) == if i.name == [47] then 65 else 64
  {
  }

  // ---------- What it writes ----------

  function StatBytes(i: FileInfo): bytes {
    (Le32(|Name(i)|) + Name(i)) + (EncodeInt64(Size(i)) + (Le32(i.mtime) + Le32(Mode(i))))
  }

  function IdBytes(present: bool): bytes { if present then Le32(STAT_ID) else [] }

  function RdevBytes(o: Options, i: FileInfo): bytes {
    IdBytes((o.devices && DeviceFile(i.kind)) || (o.specials && SpecialFile(i.kind)))
  }

  predicate LinkFails(o: Options, i: FileInfo) { o.links && i.kind.Symlink? && i.target.None? }

  function LinkBytes(o: Options, i: FileInfo): bytes {
    if o.links && i.kind.Symlink? && i.target.Some? then Le32(|i.target.value|) + i.target.value else []
  }

  function NoSum(): bytes { seq(16, _ => 0) }

  /** The checksum is not written after a link that could not be read, or when the file cannot be. */
  function SumBytes(o: Options, i: FileInfo): bytes {
    if !o.checksum || LinkFails(o, i) then []
    else if !i.kind.Regular? then NoSum()
    else if i.sum.Some? then i.sum.value
    else []
  }

  /** What follows the status byte. */
  function RecordBytes(o: Options, i: FileInfo): bytes {
    StatBytes(i) + (IdBytes(o.uid) + (IdBytes(o.gid) + (RdevBytes(o, i) + (LinkBytes(o, i) + SumBytes(o, i)))))
  }

  // ---------- When the receiver understands a record ----------

  /** The entry is that of the file: its own name but for the root, its own length but for a directory, its
      time, and a mode with its permissions and the number of its type. */
  predicate ListedAs(i: FileInfo, e: Entry) {
    && e.name == (if i.name == [47] then [46] else i.name)
    && (i.kind.Directory? ==> e.length == 4096) && (!i.kind.Directory? ==> e.length == i.size)
    && e.mtime == i.mtime
    && e.mode == i.perm + 0x1000 * match i.kind
                                   case Irregular => 0
                                   case NamedPipe => 1
                                   case CharDevice => 2
                                   case Directory => 4
                                   case BlockDevice => 6
                                   case Regular => 8
                                   case Symlink => 10
                                   case Socket => 12
  }

  /** The entry says about the file what the options ask for. */
  predicate Shows(o: Options, i: FileInfo, e: Entry) {
    && ListedAs(i, e)
    && e.uid == (if o.uid then 1000 else 0) && e.gid == (if o.gid then 1000 else 0)
    && e.rdev == (if o.devices && (i.kind.CharDevice? || i.kind.BlockDevice? || i.kind.NamedPipe? || i.kind.Socket?)
                  then 1000 else 0)
    && if o.links && i.kind.Symlink? then i.target == Some(e.link) else e.link == []
  }

  /** After any previous entry and before any bytes, the decoder reads the record as the file and stops
      where the record ends. */
  ghost predicate Understood(o: Options, i: FileInfo) {
    forall last, rest :: UnderstoodBetween(o, i, last, rest)
  }

  ghost predicate UnderstoodBetween(o: Options, i: FileInfo, last: Entry, rest: bytes) {
    var r := ParseEntry(o, RecordBytes(o, i) + rest, PlainFlags(i), last);
    r.Ok? && Shows(o, i, r.value.0) && r.value.1 == rest
  }

  predicate NameAgrees(name: bytes) { |name| < 4096 && Clean(name) == name }

  /** What a caller of SendFileList can check. */
  predicate Agrees(o: Options, i: FileInfo) {
    && NameAgrees(Name(i))
    && -0x8000_0000 <= i.mtime < 0x8000_0000
    && (SpecialFile(i.kind) ==> o.devices == o.specials)
    && (o.links && i.kind.Symlink? ==> i.target.Some? && |i.target.value| < 0x8000_0000)
    && (o.checksum ==> i.kind.Regular? && i.sum.None?)
  }

  function ViewOf(o: Options, i: FileInfo): Entry
    requires Agrees(o, i)
  {
    Entry(Name(i), Size(i), i.mtime, Mode(i), if o.uid then STAT_ID else 0, if o.gid then STAT_ID else 0,
          if o.links && i.kind.Symlink? then i.target.value else [], if HasRdev(o, Mode(i)) then STAT_ID else 0)
  }

  lemma ViewStorable(o: Options, i: FileInfo)
    requires Agrees(o, i)
    ensures Storable(o, ViewOf(o, i)) && Shows(o, i, ViewOf(o, i))
    ensures HasLink(o, Mode(i)) <==> o.links && i.kind.Symlink?
    ensures HasRdev(o, Mode(i)) <==> o.devices && (DeviceFile(i.kind) || SpecialFile(i.kind))
  {
    FormatOfMode(i);
  }

  /** The record of an agreeing file is its entry, written with nothing inherited. */
  lemma RecordIsEntry(o: Options, i: FileInfo)
    requires Agrees(o, i)
    ensures RecordBytes(o, i) == EncodeEntry(o, ViewOf(o, i), PlainFlags(i), 0)
  {
    ViewStorable(o, i);
    var v, f := ViewOf(o, i), PlainFlags(i);
    var len := Le32(|Name(i)|);
    assert v.name[0..] == v.name;
    NothingBefore(len + v.name);
    assert StatBytes(i) == EncodeStat(v, f, 0);
    NothingMore(LinkBytes(o, i));
    assert EncodeExtras(o, v, f)
        == IdBytes(o.uid) + (IdBytes(o.gid) + (RdevBytes(o, i) + (LinkBytes(o, i) + SumBytes(o, i))));
  }

  lemma AgreesUnderstood(o: Options, i: FileInfo, last: Entry, rest: bytes)
    requires Agrees(o, i)
    ensures ParseEntry(o, RecordBytes(o, i) + rest, PlainFlags(i), last) == Ok((ViewOf(o, i), rest))
  {
    ViewStorable(o, i);
    RecordIsEntry(o, i);
    EntryRoundTrip(o, last, ViewOf(o, i), PlainFlags(i), 0, rest);
  }

  // ---------- The converse ----------

  /** A length that does not fit, or a name that is not clean, never yields the name that was written. */
  lemma LongName(name: bytes, tail: bytes, f: Flags, last: bytes)
    requires f.longName && !f.sameName
    ensures var r := ParseName((Le32(|name|) + name) + tail, f, last);
      && (NameAgrees(name) ==> r == Ok((name, tail)))
      && (r.Ok? && r.value.0 == name ==> NameAgrees(name))
  {
    Assoc(Le32(|name|), name, tail);
    WordParsed(|name|, name + tail);
    if |name| < PATH_MAX {
      SmallInt32(|name|);
      ParseBytesRoundTrip(name, tail);
      NothingBefore(name);
    } else if 0 <= ToInt32(|name|) < PATH_MAX {
      var b := (name + tail)[..ToInt32(|name|)];
      NothingBefore(b);
      assert |Clean(b)| <= Max(1, |b|);
    }
  }

  /** What is read of the fields every entry has. */
  lemma StatParsed(i: FileInfo, tail: bytes, last: Entry)
    requires NameAgrees(Name(i))
    ensures ParseStat(StatBytes(i) + tail, PlainFlags(i), last)
         == Ok((NO_ENTRY.(name := Name(i), length := Size(i), mtime := ToInt32(i.mtime), mode := Mode(i)), tail))
  {
    var name, length, time, mode := Le32(|Name(i)|) + Name(i), EncodeInt64(Size(i)), Le32(i.mtime), Le32(Mode(i));
    Assoc(name, length + (time + mode), tail);
    Assoc(length, time + mode, tail);
    Assoc(time, mode, tail);
    LongName(Name(i), length + (time + (mode + tail)), PlainFlags(i), last.name);
    ParseInt64RoundTrip(Size(i), time + (mode + tail));
    WordParsed(i.mtime, mode + tail);
    ParseInt32RoundTrip(Mode(i), tail);
  }

  lemma BadName(i: FileInfo, tail: bytes, last: Entry)
    requires !NameAgrees(Name(i))
    ensures var r := ParseStat(StatBytes(i) + tail, PlainFlags(i), last); r.Ok? ==> r.value.0.name != Name(i)
  {
    var rest := EncodeInt64(Size(i)) + (Le32(i.mtime) + Le32(Mode(i)));
    Assoc(Le32(|Name(i)|) + Name(i), rest, tail);
    LongName(Name(i), rest + tail, PlainFlags(i), last.name);
  }

  /** The last fields of a record, read at the end of the input. */
  ghost function TailBytes(o: Options, i: FileInfo): bytes {
    RdevBytes(o, i) + (LinkBytes(o, i) + SumBytes(o, i))
  }

  lemma ExtrasParsed(o: Options, i: FileInfo, f: Flags, last: Entry, e: Entry)
    requires f == PlainFlags(i) && e.mode == Mode(i)
    ensures var r := ParseExtras(o, IdBytes(o.uid) + (IdBytes(o.gid) + TailBytes(o, i)), f, last, e);
      var rdev := ParseField(TailBytes(o, i), HasRdev(o, Mode(i)), false, last.rdev);
      && (r.Ok? ==> rdev.Ok?)
      && (r.Ok? ==> var link := ParseLink(rdev.value.1, HasLink(o, Mode(i)));
                    link.Ok? && r.value.1 == link.value.1 && r.value.0.link == link.value.0)
  {
    FieldRoundTrip(if o.uid then STAT_ID else 0, o.uid, false, last.uid, IdBytes(o.gid) + TailBytes(o, i));
    FieldRoundTrip(if o.gid then STAT_ID else 0, o.gid, false, last.gid, TailBytes(o, i));
  }

  /** The last fields are read as they were meant and to the end. */
  ghost predicate TailRead(o: Options, i: FileInfo, last: Entry) {
    var rdev := ParseField(TailBytes(o, i), HasRdev(o, Mode(i)), false, last.rdev);
    && rdev.Ok?
    && var link := ParseLink(rdev.value.1, HasLink(o, Mode(i)));
       && link.Ok? && link.value.1 == []
       && (o.links && i.kind.Symlink? ==> i.target == Some(link.value.0))
  }

  lemma NoRdevParsed(o: Options, i: FileInfo, last: Entry)
    requires !SpecialFile(i.kind)
    ensures ParseField(TailBytes(o, i), HasRdev(o, Mode(i)), false, last.rdev)
         == Ok((if HasRdev(o, Mode(i)) then STAT_ID else 0, LinkBytes(o, i) + SumBytes(o, i)))
  {
    FormatOfMode(i);
    FieldRoundTrip(if HasRdev(o, Mode(i)) then STAT_ID else 0, HasRdev(o, Mode(i)), false, last.rdev,
                   LinkBytes(o, i) + SumBytes(o, i));
  }

  lemma SpecialTailRead(o: Options, i: FileInfo, last: Entry)
    requires SpecialFile(i.kind) && TailRead(o, i, last)
    ensures o.devices == o.specials && !o.checksum
  {
    FormatOfMode(i);
    NothingBefore(SumBytes(o, i));
    assert |TailBytes(o, i)| == (if o.specials then 4 else 0) + if o.checksum then 16 else 0;
  }

  lemma LinkTailRead(o: Options, i: FileInfo, last: Entry)
    requires i.kind.Symlink? && o.links && TailRead(o, i, last)
    ensures i.target.Some? && |i.target.value| < 0x8000_0000 && !o.checksum
  {
    FormatOfMode(i);
    NoRdevParsed(o, i, last);
    if i.target.Some? {
      var t := i.target.value;
      Assoc(Le32(|t|), t, SumBytes(o, i));
      WordParsed(|t|, t + SumBytes(o, i));
    }
  }

  lemma PlainTailRead(o: Options, i: FileInfo, last: Entry)
    requires !SpecialFile(i.kind) && !(i.kind.Symlink? && o.links) && TailRead(o, i, last)
    ensures o.checksum ==> i.kind.Regular? && i.sum.None?
  {
    FormatOfMode(i);
    NoRdevParsed(o, i, last);
    NothingBefore(SumBytes(o, i));
  }

  lemma TailUnderstood(o: Options, i: FileInfo, last: Entry)
    requires TailRead(o, i, last)
    ensures SpecialFile(i.kind) ==> o.devices == o.specials
    ensures o.links && i.kind.Symlink? ==> i.target.Some? && |i.target.value| < 0x8000_0000
    ensures o.checksum ==> i.kind.Regular? && i.sum.None?
  {
    if SpecialFile(i.kind) {
      SpecialTailRead(o, i, last);
    } else if i.kind.Symlink? && o.links {
      LinkTailRead(o, i, last);
    } else {
      PlainTailRead(o, i, last);
    }
  }

  /** A record that is read as it was meant where the stream ends has a name and a time that fit. */
  lemma UnderstoodStat(o: Options, i: FileInfo)
    requires UnderstoodBetween(o, i, NO_ENTRY, [])
    ensures NameAgrees(Name(i)) && i.mtime == ToInt32(i.mtime)
    ensures TailRead(o, i, NO_ENTRY)
  {
    NothingMore(RecordBytes(o, i));
    var tail := IdBytes(o.uid) + (IdBytes(o.gid) + TailBytes(o, i));
    if NameAgrees(Name(i)) {
      StatParsed(i, tail, NO_ENTRY);
      var e := NO_ENTRY.(name := Name(i), length := Size(i), mtime := ToInt32(i.mtime), mode := Mode(i));
      ExtrasParsed(o, i, PlainFlags(i), NO_ENTRY, e);
    } else {
      BadName(i, tail, NO_ENTRY);
    }
  }

  /** Exactly these records are understood. */
  lemma UnderstoodIffAgrees(o: Options, i: FileInfo)
    ensures Understood(o, i) <==> Agrees(o, i)
  {
    if Agrees(o, i) {
      ViewStorable(o, i);
      forall last, rest ensures UnderstoodBetween(o, i, last, rest) {
        AgreesUnderstood(o, i, last, rest);
      }
    } else if UnderstoodBetween(o, i, NO_ENTRY, []) {
      UnderstoodStat(o, i);
      TailUnderstood(o, i, NO_ENTRY);
      assert false;
    }
  }
}
