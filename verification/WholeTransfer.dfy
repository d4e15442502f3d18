/** A whole transfer: the file list, then the files. Both sides have sorted their lists on their own, and
    still every file is stored under its own name. */
module WholeTransfer {
  import opened Bytes
  import opened SumHead
  import opened Names
  import opened FileEntry
  import opened FileRecord
  import opened FileList
  import opened DeltaTransfer
  import opened MainLoops

  /** The receiver's copy of a file, with its modification time in nanoseconds. */
  datatype LocalCopy = LocalCopy(content: bytes, mtime: int)

  const NANOSECONDS := 1_000_000_000

  /** What both sides have stored under each name, and their options. */
  datatype World = World(seed: int32, dry: bool, opts: UpdateOptions, remote: bytes -> Option<bytes>,
                         local: bytes -> Option<LocalCopy>) {

    ghost predicate AllSized() {
      && (forall name :: remote(name).Some? ==> |remote(name).value| < MAX_FILE)
      && (forall name :: local(name).Some? ==> Sized(|local(name).value.content|))
    }

    function Copy(name: bytes): Option<bytes> {
      if local(name).Some? then Some(local(name).value.content) else None
    }

    function LocalOf(e: Entry): Local {
      Local(IsRegular(e), e.length, e.mtime * NANOSECONDS, Copy(e.name),
            if local(e.name).Some? then local(e.name).value.mtime else 0)
    }

    function LocalsOf(entries: seq<Entry>): (ls: seq<Local>)
      ensures |ls| == |entries| && forall k | 0 <= k < |ls| :: ls[k] == LocalOf(entries[k])
    {
      if entries == [] then [] else [LocalOf(entries[0])] + LocalsOf(entries[1..])
    }

    function RemotesOf(files: seq<SenderFile>): (rs: seq<Option<bytes>>)
      ensures |rs| == |files| && forall k | 0 <= k < |rs| :: rs[k] == remote(files[k].wpath)
    {
      if files == [] then [] else [remote(files[0].wpath)] + RemotesOf(files[1..])
    }

    /** Files are not only listed, and the entry is regular, has no copy that is good enough, and the sender
        can open the file. */
    predicate Transferred(e: Entry) {
      && !opts.listOnly && LocalOf(e).regular && (LocalOf(e).copy.Some? ==> !LocalOf(e).UpToDate(opts))
      && (dry || remote(e.name).Some?)
    }

    /** What is stored under a name: nothing in a dry run, else the file of that name, as far as the sums
        can tell. */
    ghost predicate StoredUnder(name: bytes, data: Option<bytes>)
      requires AllSized()
    {
      if dry then data == None
      else remote(name).Some? && data.Some? && Arrives(seed, Copy(name), remote(name).value, Ok(data.value))
    }

    /** What a transfer that succeeds has stored: under every name the file it is, and the names are those of the
        files that were to be transferred, each as often as it is listed. */
    ghost predicate Delivered(infos: seq<FileInfo>, list: seq<(bytes, Option<bytes>)>)
      requires AllSized()
    {
      && (forall k | 0 <= k < |list| :: StoredUnder(list[k].0, list[k].1))
      && (forall i | 0 <= i < |infos| :: Sends(infos[i]) ==> exists k :: 0 <= k < |list| && list[k].0 == Name(infos[i]))
      && multiset(StoredNames(list)) == multiset(SentNames(infos))
    }

    // ---------- Which files are transferred, and what can go wrong ----------

    /** A file is transferred unless files are only listed, it is not regular, the sender cannot open it, or the
        receiver has a copy that is good enough: of the same length and, if that counts, with the same time. */
    predicate Sends(i: FileInfo) {
      var name := if i.name == [47] then [46] else i.name;
      && !opts.listOnly && (i.kind.Regular? || i.kind.Irregular?) && (dry || remote(name).Some?)
      && !(&& local(name).Some? && !opts.alwaysChecksum && !opts.ignoreTimes
           && |local(name).value.content| == i.size
           && (opts.sizeOnly || local(name).value.mtime == i.mtime * 1_000_000_000))
    }

    /** The names of the files that are transferred. */
    function SentNames(infos: seq<FileInfo>): seq<bytes> {
      if infos == [] then []
      else
        var i := infos[0];
        (if Sends(i) then [if i.name == [47] then [46] else i.name] else []) + SentNames(infos[1..])
    }

    /** The sender panics. */
    ghost predicate PanicsOn(i: FileInfo)
      requires AllSized()
    {
      !dry && Sends(i) && Panicking(seed, Copy(Name(i)), remote(Name(i)).value)
    }

    /** Its sums do not tell windows from blocks. */
    ghost predicate CollidesOn(i: FileInfo)
      requires AllSized()
    {
      && !dry && Sends(i) && !Fresh(Copy(Name(i)))
      && !CollisionFree(seed, remote(Name(i)).value, Copy(Name(i)).value)
    }

    /** It goes whole, and its geometry is refused. */
    ghost predicate RefusedOn(i: FileInfo)
      requires AllSized()
    {
      !dry && Sends(i) && Refused(Copy(Name(i)), remote(Name(i)).value)
    }

    ghost predicate SomePanics(infos: seq<FileInfo>)
      requires AllSized()
    {
      exists i: nat :: i < |infos| && PanicsOn(infos[i])
    }

    /** An error that a file accounts for. */
    ghost predicate FailsFor(infos: seq<FileInfo>, e: Error)
      requires AllSized()
    {
      || (e == FileCorruption && exists i: nat :: i < |infos| && CollidesOn(infos[i]))
      || (e == InvalidBlockLength && exists i: nat :: i < |infos| && RefusedOn(infos[i]))
    }

    /** The names of the entries that are transferred. */
    function TransferredNames(entries: seq<Entry>): seq<bytes> {
      if entries == [] then []
      else (if Transferred(entries[0]) then [entries[0].name] else []) + TransferredNames(entries[1..])
    }
  }

  /** FileMode().IsRegular(): every type that FileMode has no bit for counts as regular. */
  predicate IsRegular(e: Entry) {
    Format(e.mode) !in {S_IFCHR, S_IFBLK, S_IFIFO, S_IFSOCK, S_IFLNK, S_IFDIR}
  }

  /** On an entry the program decides as the file calls for. */
  lemma SendsEntry(w: World, i: FileInfo, e: Entry)
    requires ListedAs(i, e)
    ensures w.Transferred(e) <==> w.Sends(i)
    ensures e.name == Name(i) == if i.name == [47] then [46] else i.name
  {
    FormatOfMode(i);
  }

  // ---------- Index by index ----------

  /** The exchange of the files of two lists that agree on names. */
  function ExchangeOf(w: World, sent: seq<SenderFile>, received: seq<Entry>): Exchange {
    Exchange(w.seed, w.dry, w.opts, w.LocalsOf(received), w.RemotesOf(sent))
  }

  ghost predicate SameIndices(sent: seq<SenderFile>, received: seq<Entry>) {
    |sent| == |received| && forall k | 0 <= k < |sent| :: sent[k].wpath == received[k].name
  }

  lemma ExchangeOk(w: World, sent: seq<SenderFile>, received: seq<Entry>)
    requires w.AllSized() && SameIndices(sent, received) && |sent| < 0x8000_0000
    ensures ExchangeOf(w, sent, received).Ok()
  {
  }

  lemma AnsweredIs(w: World, sent: seq<SenderFile>, received: seq<Entry>, k: nat)
    requires SameIndices(sent, received) && k < |received|
    ensures ExchangeOf(w, sent, received).Answered(k) <==> w.Transferred(received[k])
  {
  }

  /** Names in the place of indices. */
  function Named(entries: seq<Entry>, list: seq<(nat, Option<bytes>)>): (r: seq<(bytes, Option<bytes>)>)
    requires forall k | 0 <= k < |list| :: list[k].0 < |entries|
    ensures |r| == |list| && forall k | 0 <= k < |list| :: r[k] == (entries[list[k].0].name, list[k].1)
  {
    if list == [] then [] else [(entries[list[0].0].name, list[0].1)] + Named(entries, list[1..])
  }

  lemma StoredByName(w: World, sent: seq<SenderFile>, received: seq<Entry>, k: nat, data: Option<bytes>)
    requires w.AllSized() && SameIndices(sent, received) && |sent| < 0x8000_0000 && k < |received|
    requires ExchangeOf(w, sent, received).Ok() && Stored(ExchangeOf(w, sent, received), k, data)
    ensures w.StoredUnder(received[k].name, data)
  {
  }

  // ---------- The list as it was sent and as it was sorted ----------

  /** An index and a file with the same entry. */
  lemma FatalIs(w: World, sent: seq<SenderFile>, received: seq<Entry>, k: nat, i: FileInfo)
    requires w.AllSized() && SameIndices(sent, received) && k < |received| && ListedAs(i, received[k])
    requires ExchangeOf(w, sent, received).Ok()
    ensures ExchangeOf(w, sent, received).Fatal(k) <==> w.PanicsOn(i)
  {
    SendsEntry(w, i, received[k]);
  }

  /** The sender panics on an index exactly when it does on a listed file. */
  lemma FatalIsListed(w: World, o: Options, infos: seq<FileInfo>, sent: seq<SenderFile>, received: seq<Entry>)
    requires w.AllSized() && SameIndices(sent, received) && |sent| < 0x8000_0000 && AllAgree(o, infos)
    requires multiset(received) == multiset(ViewsOf(o, infos)) && ExchangeOf(w, sent, received).Ok()
    ensures ExchangeOf(w, sent, received).SomeFatalFrom(0) <==> w.SomePanics(infos)
  {
    var s := ExchangeOf(w, sent, received);
    s.SomeFatalIs(0);
    if s.SomeFatalFrom(0) {
      var k: nat :| k < |s.locals| && s.Fatal(k);
      var i := FileFor(o, infos, received, k);
      FatalIs(w, sent, received, k, infos[i]);
    }
    if w.SomePanics(infos) {
      var i: nat :| i < |infos| && w.PanicsOn(infos[i]);
      var k := EntryFor(o, infos, received, i);
      FatalIs(w, sent, received, k, infos[i]);
    }
  }

  /** So is what the receiver stops for. */
  lemma StopIsListed(w: World, o: Options, infos: seq<FileInfo>, sent: seq<SenderFile>, received: seq<Entry>, e: Error)
    requires w.AllSized() && SameIndices(sent, received) && |sent| < 0x8000_0000 && AllAgree(o, infos)
    requires multiset(received) == multiset(ViewsOf(o, infos)) && ExchangeOf(w, sent, received).Ok()
    requires StopsFor(ExchangeOf(w, sent, received), e)
    ensures w.FailsFor(infos, e)
  {
    var s := ExchangeOf(w, sent, received);
    if e == FileCorruption {
      var k: nat :| k < |s.locals| && Collides(s, k);
      var i := FileFor(o, infos, received, k);
      SendsEntry(w, infos[i], received[k]);
      assert w.CollidesOn(infos[i]);
    } else {
      var k: nat :| k < |s.locals| && TooLong(s, k);
      var i := FileFor(o, infos, received, k);
      SendsEntry(w, infos[i], received[k]);
      assert w.RefusedOn(infos[i]);
    }
  }

  lemma {:induction false} TransferredAppend(w: World, a: seq<Entry>, b: seq<Entry>)
    ensures w.TransferredNames(a + b) == w.TransferredNames(a) + w.TransferredNames(b)
  {
    if a == [] {
      NothingBefore(b);
      NothingBefore(w.TransferredNames(b));
    } else {
      assert (a + b)[0] == a[0] && (a + b)[1..] == a[1..] + b;
      TransferredAppend(w, a[1..], b);
      Assoc(if w.Transferred(a[0]) then [a[0].name] else [], w.TransferredNames(a[1..]), w.TransferredNames(b));
    }
  }

  lemma TransferredRemove(w: World, xs: seq<Entry>, k: nat)
    requires k < |xs|
    ensures multiset(w.TransferredNames(xs))
         == multiset(w.TransferredNames([xs[k]])) + multiset(w.TransferredNames(xs[..k] + xs[k + 1..]))
  {
    assert xs == xs[..k] + ([xs[k]] + xs[k + 1..]);
    TransferredAppend(w, xs[..k], [xs[k]] + xs[k + 1..]);
    TransferredAppend(w, [xs[k]], xs[k + 1..]);
    TransferredAppend(w, xs[..k], xs[k + 1..]);
  }

  /** Rearranging a list rearranges the names that are transferred. */
  lemma {:induction false} TransferredPermuted(w: World, xs: seq<Entry>, ys: seq<Entry>)
    requires multiset(xs) == multiset(ys)
    ensures multiset(w.TransferredNames(xs)) == multiset(w.TransferredNames(ys))
    decreases |xs|
  {
    SameLength(xs, ys);
    if xs != [] {
      var k := ElementOf(xs, ys, 0);
      TailCounts(xs);
      RemoveCounts(ys, k);
      TransferredPermuted(w, xs[1..], ys[..k] + ys[k + 1..]);
      TransferredRemove(w, ys, k);
      TransferredRemove(w, xs, 0);
      assert xs[..0] + xs[1..] == xs[1..];
    }
  }

  function StoredNames(list: seq<(bytes, Option<bytes>)>): (names: seq<bytes>)
    ensures |names| == |list| && forall k | 0 <= k < |list| :: names[k] == list[k].0
  {
    if list == [] then [] else [list[0].0] + StoredNames(list[1..])
  }

  /** The answered indices name the entries that are transferred, in their order. */
  lemma {:induction false} AnsweredNames(w: World, sent: seq<SenderFile>, received: seq<Entry>, from: nat)
    requires SameIndices(sent, received) && from <= |received|
    ensures var a, names := ExchangeOf(w, sent, received).AnsweredFrom(from), w.TransferredNames(received[from..]);
      && |a| == |names| && forall k | 0 <= k < |a| :: a[k] < |received| && received[a[k]].name == names[k]
    decreases |received| - from
  {
    if from < |received| {
      AnsweredIs(w, sent, received, from);
      assert received[from..][1..] == received[from + 1..];
      AnsweredNames(w, sent, received, from + 1);
    }
  }

  lemma {:induction false} SentAreTransferred(w: World, o: Options, infos: seq<FileInfo>)
    requires AllAgree(o, infos)
    ensures w.TransferredNames(ViewsOf(o, infos)) == w.SentNames(infos)
  {
    if infos != [] {
      ViewStorable(o, infos[0]);
      SendsEntry(w, infos[0], ViewOf(o, infos[0]));
      SentAreTransferred(w, o, infos[1..]);
    }
  }

  /** What is stored for every answered index, by name. */
  lemma StoredAreListed(w: World, o: Options, infos: seq<FileInfo>, sent: seq<SenderFile>, received: seq<Entry>,
                        list: seq<(nat, Option<bytes>)>)
    requires SameIndices(sent, received) && AllAgree(o, infos)
    requires multiset(received) == multiset(ViewsOf(o, infos))
    requires var a := ExchangeOf(w, sent, received).AnsweredFrom(0);
      |list| == |a| && forall k | 0 <= k < |a| :: list[k].0 == a[k] < |received|
    ensures multiset(StoredNames(Named(received, list))) == multiset(w.SentNames(infos))
  {
    AnsweredNames(w, sent, received, 0);
    assert received[0..] == received;
    assert StoredNames(Named(received, list)) == w.TransferredNames(received);
    TransferredPermuted(w, received, ViewsOf(o, infos));
    SentAreTransferred(w, o, infos);
  }

  lemma {:induction false} NameIsSent(w: World, infos: seq<FileInfo>, j: nat)
    requires j < |infos| && w.Sends(infos[j])
    ensures Name(infos[j]) in w.SentNames(infos)
  {
    if j > 0 {
      NameIsSent(w, infos[1..], j - 1);
    }
  }

  /** Every listed file that is to be transferred is among the stored ones. */
  lemma ListedIsStored(w: World, infos: seq<FileInfo>, j: nat, list: seq<(bytes, Option<bytes>)>) returns (k: nat)
    requires j < |infos| && w.Sends(infos[j])
    requires multiset(StoredNames(list)) == multiset(w.SentNames(infos))
    ensures k < |list| && list[k].0 == Name(infos[j])
  {
    NameIsSent(w, infos, j);
    assert Name(infos[j]) in multiset(StoredNames(list));
    k :| k < |list| && StoredNames(list)[k] == Name(infos[j]);
  }

  lemma AllStored(w: World, infos: seq<FileInfo>, list: seq<(bytes, Option<bytes>)>)
    requires multiset(StoredNames(list)) == multiset(w.SentNames(infos))
    ensures forall i | 0 <= i < |infos| ::
      w.Sends(infos[i]) ==> exists k :: 0 <= k < |list| && list[k].0 == Name(infos[i])
  {
    forall i | 0 <= i < |infos| && w.Sends(infos[i])
      ensures exists k :: 0 <= k < |list| && list[k].0 == Name(infos[i])
    {
      var k := ListedIsStored(w, infos, i, list);
    }
  }

  /** The files of two lists that agree on names. */
  method TransferFiles(w: World, sent: seq<SenderFile>, received: seq<Entry>, senderServes: bool,
                       ghost o: Options, ghost infos: seq<FileInfo>)
    returns (r: Result<seq<(bytes, Option<bytes>)>>)
    requires w.AllSized() && SameIndices(sent, received) && |infos| < 0x8000_0000 && AllAgree(o, infos)
    requires multiset(received) == multiset(ViewsOf(o, infos))
    ensures r == Err(Panic) <==> w.SomePanics(infos)
    ensures r.Err? && r.error != Panic ==> w.FailsFor(infos, r.error)
    ensures r.Ok? ==> w.Delivered(infos, r.value)
  {
    ViewsLength(o, infos);
    SameLength(received, ViewsOf(o, infos));
    ExchangeOk(w, sent, received);
    var s := ExchangeOf(w, sent, received);
    FatalIsListed(w, o, infos, sent, received);
    var list := SynchronizeAll(s, senderServes);
    if list.Err? {
      if list.error != Panic {
        StopIsListed(w, o, infos, sent, received, list.error);
      }
      return Err(list.error);
    }
    r := Ok(Named(received, list.value));
    StoredAreListed(w, o, infos, sent, received, list.value);
    forall k | 0 <= k < |r.value| ensures w.StoredUnder(r.value[k].0, r.value[k].1) {
      StoredByName(w, sent, received, list.value[k].0, list.value[k].1);
    }
    AllStored(w, infos, r.value);
  }

  /** A whole transfer. Whatever is stored is stored under the name of the file it is; the listed files that
      are regular, not up to date and can be opened are stored, each as often as it is listed, and no others.
      It fails for one of five reasons: a path that cannot be read, a list too long for a message, a panic of
      the sender, sums that collide, and a geometry that is refused. */
  method TransferAll(w: World, o: Options, excluded: bytes -> bool, listings: seq<seq<FileInfo>>, senderServes: bool)
    returns (r: Result<seq<(bytes, Option<bytes>)>>)
    requires w.AllSized() && AllAgree(o, KeptOfAll(excluded, listings)) && |KeptOfAll(excluded, listings)| < 0x8000_0000
    requires ListFits(o, KeptOfAll(excluded, listings), senderServes)
             || ListTooLong(o, KeptOfAll(excluded, listings), senderServes)
    ensures r == Err(FileUnreadable) <==> SomePathFails(o, excluded, listings)
    ensures !SomePathFails(o, excluded, listings) ==>
      (r == Err(MessageTooLong) <==> !ListFits(o, KeptOfAll(excluded, listings), senderServes))
    ensures !SomePathFails(o, excluded, listings) && ListFits(o, KeptOfAll(excluded, listings), senderServes) ==>
      && (r == Err(Panic) <==> w.SomePanics(KeptOfAll(excluded, listings)))
      && (r.Err? && r.error != Panic ==> w.FailsFor(KeptOfAll(excluded, listings), r.error))
    ensures r.Ok? ==> w.Delivered(KeptOfAll(excluded, listings), r.value)
  {
    var exchanged, left := ExchangeFileList(o, excluded, listings, senderServes, []);
    if exchanged.Err? {
      return Err(exchanged.error);
    }
    r := TransferFiles(w, exchanged.value.0, exchanged.value.1, senderServes, o, KeptOfAll(excluded, listings));
  }
}
