/** The loops of generator.go, sender.go and receiver.go over all files of a list, on the streams between
    them. What one file's transfer promises holds for each, in order. */
module MainLoops {
  import opened Bytes
  import opened Wire
  import opened Multiplex
  import opened SumHead
  import opened Sender
  import opened Receiver
  import opened DeltaTransfer

  // ---------- A stream of optional parts ----------

  /** The parts from k on, one after the other. */
  function Joined(parts: seq<Option<bytes>>, k: nat): bytes
    requires k <= |parts|
    decreases |parts| - k
  {
    if k == |parts| then [] else (if parts[k].Some? then parts[k].value else []) + Joined(parts, k + 1)
  }

  /** The first part from k on. */
  function NextPart(parts: seq<Option<bytes>>, k: nat): (n: nat)
    requires k <= |parts|
    ensures k <= n <= |parts| && (n < |parts| ==> parts[n].Some?)
    decreases |parts| - k
  {
    if k == |parts| || parts[k].Some? then k else NextPart(parts, k + 1)
  }

  lemma {:induction false} SkipToPart(parts: seq<Option<bytes>>, k: nat)
    requires k <= |parts|
    ensures Joined(parts, k) == Joined(parts, NextPart(parts, k))
    decreases |parts| - k
  {
    if k < |parts| && parts[k].None? {
      NothingBefore(Joined(parts, k + 1));
      SkipToPart(parts, k + 1);
    }
  }

  /** What is read where a part that starts with a number is next. */
  lemma PartAhead(parts: seq<Option<bytes>>, k: nat, n: int32, more: bytes, rest: bytes)
    requires k < |parts| && parts[k] == Some(Le32(n) + more)
    ensures ParseInt32(Joined(parts, k) + rest)
         == Ok((n, more + (Joined(parts, NextPart(parts, k + 1)) + rest)))
  {
    SkipToPart(parts, k + 1);
    var tail := Joined(parts, k + 1);
    Assoc(Le32(n) + more, tail, rest);
    Assoc(Le32(n), more, tail + rest);
    ParseInt32RoundTrip(n, more + (tail + rest));
  }

  // ---------- A session ----------

  /** The options that recvGenerator looks at, but for DryRun. */
  datatype UpdateOptions = UpdateOptions(listOnly: bool, alwaysChecksum: bool, ignoreTimes: bool, sizeOnly: bool)

  /** A list entry at the receiver: whether it is a regular file, its length and time in the list, and the
      local copy, if one opens, with its time. Times are in nanoseconds. */
  datatype Local = Local(regular: bool, length: int, mtime: int, copy: Option<bytes>, copyTime: int) {

    /** The copy is good enough: neither option forces the file, the length is the listed one, and so is the time
        unless only the size counts. */
    predicate UpToDate(o: UpdateOptions)
      requires copy.Some?
    {
      && !o.alwaysChecksum && !o.ignoreTimes
      && |copy.value| == length && (o.sizeOnly || copyTime == mtime)
    }
  }

  /** skipFile. */
  method SkipFile(o: UpdateOptions, f: Local) returns (skip: bool)
    requires f.copy.Some?
    ensures skip <==>
      && !o.alwaysChecksum && !o.ignoreTimes
      && |f.copy.value| == f.length && (o.sizeOnly || f.copyTime == f.mtime)
  {
    if o.alwaysChecksum || o.ignoreTimes {
      return false;
    }
    var sizeMatch := |f.copy.value| == f.length;
    if o.sizeOnly {
      return sizeMatch;
    }
    var timeMatch := f.copyTime == f.mtime;
    skip := sizeMatch && timeMatch;
  }

  /** One exchange: the seed, DryRun on both sides, the receiver's options, and each entry as the receiver
      and as the sender has it. A sender's file that does not open is None. */
  datatype Exchange = Exchange(seed: int32, dry: bool, opts: UpdateOptions, locals: seq<Local>,
                               files: seq<Option<bytes>>) {

    predicate Ok() {
      && |locals| == |files| < 0x8000_0000
      && (forall k | 0 <= k < |locals| :: LocalOk(locals[k].copy))
      && (forall k | 0 <= k < |files| :: files[k].Some? ==> |files[k].value| < MAX_FILE)
    }

    predicate Wanted(k: nat)
      requires k < |locals|
    {
      !opts.listOnly && locals[k].regular && (locals[k].copy.Some? ==> !locals[k].UpToDate(opts))
    }

    predicate Answered(k: nat)
      requires k < |locals| == |files|
    {
      Wanted(k) && (dry || files[k].Some?)
    }

    /** The indices from k on that the sender answers. */
    function AnsweredFrom(k: nat): seq<nat>
      requires k <= |locals| == |files|
      decreases |locals| - k
    {
      if k == |locals| then [] else (if Answered(k) then [k] else []) + AnsweredFrom(k + 1)
    }

    /** The sender panics on this file. */
    ghost predicate Fatal(k: nat)
      requires Ok() && k < |locals|
    {
      !dry && Wanted(k) && files[k].Some? && Panicking(seed, locals[k].copy, files[k].value)
    }

    ghost predicate SomeFatalFrom(k: nat)
      requires Ok() && k <= |locals|
      decreases |locals| - k
    {
      k < |locals| && (Fatal(k) || SomeFatalFrom(k + 1))
    }

    lemma {:induction false} SomeFatalIs(k: nat)
      requires Ok() && k <= |locals|
      ensures SomeFatalFrom(k) <==> exists j: nat :: k <= j < |locals| && Fatal(j)
      decreases |locals| - k
    {
      if k < |locals| {
        SomeFatalIs(k + 1);
        assert Fatal(k) ==> SomeFatalFrom(k);
      }
    }

    // ---------- The requests ----------

    ghost function SumsOf(k: nat): bytes
      requires Ok() && k < |locals|
    {
      if dry then [] else Asked(seed, locals[k].copy)
    }

    ghost function RequestOf(k: nat): Option<bytes>
      requires Ok() && k < |locals|
    {
      if Wanted(k) then Some(Le32(k) + SumsOf(k)) else None
    }

    ghost function RequestsTo(n: nat): (parts: seq<Option<bytes>>)
      requires Ok() && n <= |locals|
      ensures |parts| == n
    {
      if n == 0 then [] else RequestsTo(n - 1) + [RequestOf(n - 1)]
    }

    lemma {:induction false} RequestsAt(n: nat, k: nat)
      requires Ok() && k < n <= |locals|
      ensures RequestsTo(n)[k] == RequestOf(k)
    {
      if k < n - 1 {
        RequestsAt(n - 1, k);
      }
    }

    /** The requests, entry by entry. */
    ghost function Requests(): (parts: seq<Option<bytes>>)
      requires Ok()
      ensures |parts| == |locals|
    {
      RequestsTo(|locals|)
    }

    /** The first entry from k on that is requested. */
    function NextWanted(k: nat): (n: nat)
      requires k <= |locals|
      ensures k <= n <= |locals| && (n < |locals| ==> Wanted(n))
      decreases |locals| - k
    {
      if k == |locals| || Wanted(k) then k else NextWanted(k + 1)
    }

    lemma {:induction false} NextRequest(k: nat)
      requires Ok() && k <= |locals|
      ensures NextPart(Requests(), k) == NextWanted(k)
      decreases |locals| - k
    {
      if k < |locals| {
        RequestsAt(|locals|, k);
        if !Wanted(k) {
          NextRequest(k + 1);
        }
      }
    }

    /** Entries that are not requested are not answered and do no harm. */
    lemma {:induction false} SkipAnswers(k: nat)
      requires Ok() && k <= |locals|
      ensures AnsweredFrom(k) == AnsweredFrom(NextWanted(k))
      decreases |locals| - k
    {
      if k < |locals| && !Wanted(k) {
        NothingBefore(AnsweredFrom(k + 1));
        SkipAnswers(k + 1);
      }
    }

    lemma AnsweredStep(k: nat)
      requires Ok() && k < |locals|
      ensures var rest := AnsweredFrom(NextWanted(k + 1));
        AnsweredFrom(k) == if Answered(k) then [k] + rest else rest
    {
      SkipAnswers(k + 1);
      NothingBefore(AnsweredFrom(k + 1));
    }

    lemma {:induction false} SkipFatal(k: nat)
      requires Ok() && k <= |locals|
      ensures SomeFatalFrom(k) == SomeFatalFrom(NextWanted(k))
      decreases |locals| - k
    {
      if k < |locals| && !Wanted(k) {
        SkipFatal(k + 1);
      }
    }
  }

  ghost const MARKS: bytes := Le32(-1) + Le32(-1)

  /** recvGenerator. */
  method RecvGenerator(c: Conn, s: Exchange, idx: nat)
    requires s.Ok() && idx < |s.locals|
    modifies c`wr, c`writes
    ensures c.WroteShort()
    ensures c.wr == old(c.wr) + if s.RequestOf(idx).Some? then s.RequestOf(idx).value else []
    ensures var f, o := s.locals[idx], s.opts;
      c.wr == old(c.wr) <==>
        || o.listOnly || !f.regular
        || (&& f.copy.Some? && !o.alwaysChecksum && !o.ignoreTimes
            && |f.copy.value| == f.length && (o.sizeOnly || f.copyTime == f.mtime))
  {
    var f := s.locals[idx];
    if s.opts.listOnly {
      NothingMore(c.wr);
      return;
    }
    if !f.regular {
      NothingMore(c.wr);
      return;
    }
    if f.copy.Some? {
      var skip := SkipFile(s.opts, f);
      if skip {
        NothingMore(c.wr);
        return;
      }
    }
    c.WriteInt32(idx);
    if s.dry {
      NothingMore(Le32(idx));
      return;
    }
    RequestFile(s.seed, c, f.copy);
    Assoc(old(c.wr), Le32(idx), s.SumsOf(idx));
  }

  /** GenerateFiles. */
  method GenerateFiles(c: Conn, s: Exchange)
    requires s.Ok()
    modifies c`wr, c`writes
    ensures c.wr == old(c.wr) + (Joined(s.Requests(), 0) + MARKS) && c.WroteShort()
  {
    ghost var parts := s.Requests();
    for idx := 0 to |s.locals|
      invariant c.WroteShort()
      invariant c.wr + Joined(parts, idx) == old(c.wr) + Joined(parts, 0)
    {
      ghost var before := c.wr;
      s.RequestsAt(|s.locals|, idx);
      RecvGenerator(c, s, idx);
      Assoc(before, if parts[idx].Some? then parts[idx].value else [], Joined(parts, idx + 1));
    }
    NothingMore(c.wr);
    c.WriteInt32(-1);
    c.WriteInt32(-1);
    Assoc(old(c.wr) + Joined(parts, 0), Le32(-1), Le32(-1));
    Assoc(old(c.wr), Joined(parts, 0), MARKS);
  }

  // ---------- The answers ----------

  /** What the sender wrote for a file, and what the receiver is to make of it. */
  datatype Sent = Sent(index: nat, reply: bytes, out: Result<bytes>)

  ghost predicate SentOk(s: Exchange, x: Sent)
    requires s.Ok()
  {
    && x.index < |s.locals| && s.Answered(x.index)
    && if s.dry then x.reply == Le32(x.index)
       else
         && Yields(x.reply, x.index, s.seed, s.locals[x.index].copy, x.out)
         && Arrives(s.seed, s.locals[x.index].copy, s.files[x.index].value, x.out)
  }

  ghost predicate AllSentOk(s: Exchange, xs: seq<Sent>)
    requires s.Ok()
  {
    forall k | 0 <= k < |xs| :: SentOk(s, xs[k])
  }

  function IndicesOf(xs: seq<Sent>): (r: seq<nat>)
    ensures |r| == |xs| && forall k | 0 <= k < |xs| :: r[k] == xs[k].index
  {
    if xs == [] then [] else [xs[0].index] + IndicesOf(xs[1..])
  }

  lemma {:induction false} IndicesAppend(xs: seq<Sent>, x: Sent)
    ensures IndicesOf(xs + [x]) == IndicesOf(xs) + [x.index]
  {
    var r, r' := IndicesOf(xs) + [x.index], IndicesOf(xs + [x]);
    forall k | 0 <= k < |r| ensures r'[k] == r[k] {
      assert (xs + [x])[k] == if k < |xs| then xs[k] else x;
    }
  }

  function RepliesOf(xs: seq<Sent>): bytes { if xs == [] then [] else xs[0].reply + RepliesOf(xs[1..]) }

  lemma {:induction false} RepliesAppend(xs: seq<Sent>, x: Sent)
    ensures RepliesOf(xs + [x]) == RepliesOf(xs) + x.reply
  {
    if xs == [] {
      assert [x][1..] == [] && [] + [x] == [x];
      NothingBefore(x.reply);
      NothingMore(x.reply);
    } else {
      assert (xs + [x])[1..] == xs[1..] + [x];
      RepliesAppend(xs[1..], x);
      Assoc(xs[0].reply, RepliesOf(xs[1..]), x.reply);
    }
  }

  /** SendFiles, lines 39-101: one request, whose index has been read. */
  method HandleRequest(st: Transfer, s: Exchange, fileIndex: nat, ghost tail: bytes)
    returns (r: Result<()>, ghost x: Sent)
    requires s.Ok() && st.seed == s.seed && fileIndex < |s.locals| && s.Wanted(fileIndex)
    requires st.conn.rd == s.SumsOf(fileIndex) + tail
    modifies st`lastMatch, st.conn
    ensures st.conn.rd == tail && st.conn.WroteShort()
    ensures r.Err? <==> s.Fatal(fileIndex)
    ensures r.Err? ==> r.error == Panic
    ensures r.Ok? && s.Answered(fileIndex) ==>
      x.index == fileIndex && SentOk(s, x) && st.conn.wr == old(st.conn.wr) + x.reply
    ensures r.Ok? && !s.Answered(fileIndex) ==> st.conn.wr == old(st.conn.wr)
  {
    x := Sent(fileIndex, Le32(fileIndex), Ok([]));
    if s.dry {
      NothingBefore(tail);
      st.conn.WriteInt32(fileIndex);
      return Ok(()), x;
    }
    ghost var local := s.locals[fileIndex].copy;
    if s.files[fileIndex].None? {
      RequestUnderstood(s.seed, local, tail);
      var head := ReceiveSums(st.conn);
      st.lastMatch := 0;
      return Ok(()), x;
    }
    ghost var reply, out;
    r, reply, out := SendReply(st, fileIndex, s.files[fileIndex].value, local, tail);
    x := Sent(fileIndex, reply, out);
  }

  /** Where SendFiles is before the first mark: what came before entry k is answered. */
  ghost predicate Serving(s: Exchange, k: nat, sent: seq<Sent>, wr: bytes, wr': bytes)
    requires s.Ok()
  {
    && k <= |s.locals| && s.NextWanted(k) == k
    && s.SomeFatalFrom(k) == s.SomeFatalFrom(0)
    && AllSentOk(s, sent)
    && IndicesOf(sent) + s.AnsweredFrom(k) == s.AnsweredFrom(0)
    && wr' == wr + RepliesOf(sent)
  }

  lemma ServingStarts(s: Exchange, wr: bytes)
    requires s.Ok()
    ensures Serving(s, s.NextWanted(0), [], wr, wr)
  {
    s.SkipAnswers(0);
    s.SkipFatal(0);
    NothingMore(wr);
    NothingBefore(s.AnsweredFrom(0));
  }

  /** One request further. */
  lemma ServingNext(s: Exchange, k: nat, sent: seq<Sent>, x: Sent, wr: bytes, wr1: bytes, wr2: bytes)
    requires s.Ok() && Serving(s, k, sent, wr, wr1) && k < |s.locals| && !s.Fatal(k)
    requires if s.Answered(k) then x.index == k && SentOk(s, x) && wr2 == wr1 + x.reply else wr2 == wr1
    ensures Serving(s, s.NextWanted(k + 1), if s.Answered(k) then sent + [x] else sent, wr, wr2)
  {
    HarmlessNext(s, k);
    AnswersNext(s, k, sent, x);
    if s.Answered(k) {
      RepliesAppend(sent, x);
      Assoc(wr, RepliesOf(sent), x.reply);
    }
  }

  lemma HarmlessNext(s: Exchange, k: nat)
    requires s.Ok() && k < |s.locals| && !s.Fatal(k)
    ensures s.SomeFatalFrom(s.NextWanted(k + 1)) == s.SomeFatalFrom(k)
  {
    s.SkipFatal(k + 1);
  }

  lemma AnswersNext(s: Exchange, k: nat, sent: seq<Sent>, x: Sent)
    requires s.Ok() && k < |s.locals| && (s.Answered(k) ==> x.index == k)
    ensures IndicesOf(if s.Answered(k) then sent + [x] else sent) + s.AnsweredFrom(s.NextWanted(k + 1))
         == IndicesOf(sent) + s.AnsweredFrom(k)
  {
    s.AnsweredStep(k);
    if s.Answered(k) {
      IndicesAppend(sent, x);
      Assoc(IndicesOf(sent), [k], s.AnsweredFrom(s.NextWanted(k + 1)));
    }
  }

  /** What is read next: the index of a request, or the first mark; and after it the second. */
  lemma IndexAhead(s: Exchange, k: nat, rest: bytes)
    requires s.Ok() && k <= |s.locals| && s.NextWanted(k) == k
    ensures var ahead := ParseInt32(Joined(s.Requests(), k) + (MARKS + rest));
      if k == |s.locals| then ahead == Ok((-1, Le32(-1) + rest))
      else ahead == Ok((k, s.SumsOf(k) + (Joined(s.Requests(), s.NextWanted(k + 1)) + (MARKS + rest))))
  {
    if k == |s.locals| {
      NothingBefore(MARKS + rest);
      Assoc(Le32(-1), Le32(-1), rest);
      ParseInt32RoundTrip(-1, Le32(-1) + rest);
    } else {
      s.RequestsAt(|s.locals|, k);
      s.NextRequest(k + 1);
      PartAhead(s.Requests(), k, k, s.SumsOf(k), MARKS + rest);
    }
  }

  /** SendFiles. It reads the requests and both marks and no more; it fails only by a panic. */
  method SendFiles(st: Transfer, s: Exchange, ghost rest: bytes) returns (r: Result<()>, ghost sent: seq<Sent>)
    requires s.Ok() && st.seed == s.seed && st.conn.rd == Joined(s.Requests(), 0) + (MARKS + rest)
    modifies st`lastMatch, st.conn
    ensures st.conn.WroteShort()
    ensures r.Err? <==> s.SomeFatalFrom(0)
    ensures r.Err? ==> r.error == Panic
    ensures r.Ok? ==> st.conn.rd == rest && st.conn.wr == old(st.conn.wr) + (RepliesOf(sent) + MARKS)
    ensures r.Ok? ==> AllSentOk(s, sent) && IndicesOf(sent) == s.AnsweredFrom(0)
  {
    ghost var k, wr, wr1 := s.NextWanted(0), st.conn.wr, st.conn.wr;
    ghost var parts := s.Requests();
    sent := [];
    ServingStarts(s, wr);
    SkipToPart(parts, 0);
    s.NextRequest(0);
    var phase := 0;
    while true
      invariant st.conn.WroteShort()
      invariant 0 <= phase <= 1 && Serving(s, k, sent, wr, wr1)
      invariant phase == 0 ==> st.conn.wr == wr1 && st.conn.rd == Joined(parts, k) + (MARKS + rest)
      invariant phase == 1 ==> st.conn.wr == wr1 + Le32(-1) && st.conn.rd == Le32(-1) + rest && k == |s.locals|
      decreases 1 - phase, |s.locals| - k
    {
      IndexAhead(s, k, rest);
      ParseInt32RoundTrip(-1, rest);
      var next := st.conn.ReadInt32();
      var fileIndex := next.value;
      if fileIndex == -1 {
        if phase == 0 {
          phase := phase + 1;
          st.conn.WriteInt32(-1);
          continue;
        }
        break;
      }
      ghost var x;
      r, x := HandleRequest(st, s, fileIndex, Joined(parts, s.NextWanted(k + 1)) + (MARKS + rest));
      if r.Err? {
        return;
      }
      ServingNext(s, k, sent, x, wr, wr1, st.conn.wr);
      sent, wr1 := if s.Answered(k) then sent + [x] else sent, st.conn.wr;
      k := s.NextWanted(k + 1);
    }
    st.conn.WriteInt32(-1);
    Assoc(wr1, Le32(-1), Le32(-1));
    Assoc(wr, RepliesOf(sent), MARKS);
    NothingMore(IndicesOf(sent));
    r := Ok(());
  }

  // ---------- What arrives ----------

  /** What the receiver did for the files in order: each index with the bytes it stored, or with none in
      a dry run. It stops at the first reply it does not accept. */
  function Handled(dry: bool, xs: seq<Sent>): Result<(seq<(nat, Option<bytes>)>, bytes)> {
    if xs == [] then Ok(([], []))
    else if dry then Prepend([(xs[0].index, None)], Handled(dry, xs[1..]))
    else
      var out :- xs[0].out;
      Prepend([(xs[0].index, Some(out))], Handled(dry, xs[1..]))
  }

  /** What the receiver reads next, where replies are left. */
  lemma ReplyAhead(s: Exchange, xs: seq<Sent>, rest: bytes)
    requires s.Ok() && xs != [] && SentOk(s, xs[0])
    ensures var ahead, tail, x := ParseInt32(RepliesOf(xs) + rest), RepliesOf(xs[1..]) + rest, xs[0];
      && ahead.Ok? && ahead.value.0 == x.index
      && (s.dry ==> ahead.value.1 == tail)
      && (!s.dry && x.out.Ok? ==>
            ParseReply(ahead.value.1, s.locals[x.index].copy, s.seed) == Ok((x.out.value, tail)))
      && (!s.dry && x.out.Err? ==>
            ParseReply(ahead.value.1, s.locals[x.index].copy, s.seed) == Err(x.out.error))
  {
    var x, tail := xs[0], RepliesOf(xs[1..]) + rest;
    Assoc(x.reply, RepliesOf(xs[1..]), rest);
    if s.dry {
      ParseInt32RoundTrip(x.index, tail);
    } else {
      assert YieldsBefore(x.reply, x.index, s.seed, s.locals[x.index].copy, x.out, tail);
    }
  }

  lemma LastMarks(rest: bytes)
    ensures ParseInt32(RepliesOf([]) + (MARKS + rest)) == Ok((-1, Le32(-1) + rest))
    ensures ParseInt32(Le32(-1) + rest) == Ok((-1, rest))
  {
    NothingBefore(MARKS + rest);
    Assoc(Le32(-1), Le32(-1), rest);
    ParseInt32RoundTrip(-1, Le32(-1) + rest);
    ParseInt32RoundTrip(-1, rest);
  }

  /** RecvFiles: takes every reply for the file it was written for, and stops after the second mark. */
  method RecvFiles(c: Conn, s: Exchange, ghost sent: seq<Sent>, ghost rest: bytes)
    returns (r: Result<seq<(nat, Option<bytes>)>>)
    requires s.Ok() && AllSentOk(s, sent) && c.rd == RepliesOf(sent) + (MARKS + rest)
    modifies c`rd
    ensures match Handled(s.dry, sent)
            case Ok((list, _)) => r == Ok(list) && c.rd == rest
            case Err(e) => r == Err(e)
  {
    var list: seq<(nat, Option<bytes>)> := [];
    ghost var left := sent;
    PrependStart(Handled(s.dry, sent));
    var phase := 0;
    while true
      invariant 0 <= phase <= 1 && AllSentOk(s, left)
      invariant Handled(s.dry, sent) == Prepend(list, Handled(s.dry, left))
      invariant phase == 0 ==> c.rd == RepliesOf(left) + (MARKS + rest)
      invariant phase == 1 ==> c.rd == Le32(-1) + rest && left == []
      decreases 1 - phase, |left|
    {
      LastMarks(rest);
      if left != [] { ReplyAhead(s, left, MARKS + rest); }
      var next := c.ReadInt32();
      var idx := next.value;
      if idx == -1 {
        if phase == 0 {
          phase := phase + 1;
          continue;
        }
        break;
      }
      var data: Option<bytes> := None;
      if !s.dry {
        var out := ReceiveFile(c, s.seed, s.locals[idx].copy);
        if out.Err? {
          return Err(out.error);
        }
        data := Some(out.value);
      }
      PrependStep(list, (idx as nat, data), Handled(s.dry, left[1..]));
      list, left := list + [(idx, data)], left[1..];
    }
    NothingMore(list);
    r := Ok(list);
  }

  /** What can keep an answered file from arriving: sums that do not tell windows from blocks, or a
      geometry that the receiver refuses. */
  ghost predicate Collides(s: Exchange, k: nat)
    requires s.Ok() && k < |s.locals|
  {
    && !s.dry && s.Answered(k) && !Fresh(s.locals[k].copy)
    && !CollisionFree(s.seed, s.files[k].value, s.locals[k].copy.value)
  }

  ghost predicate TooLong(s: Exchange, k: nat)
    requires s.Ok() && k < |s.locals|
  {
    !s.dry && s.Answered(k) && Refused(s.locals[k].copy, s.files[k].value)
  }

  /** Why the receiver stops early. */
  ghost predicate StopsFor(s: Exchange, e: Error)
    requires s.Ok()
  {
    || (e == FileCorruption && exists k: nat :: k < |s.locals| && Collides(s, k))
    || (e == InvalidBlockLength && exists k: nat :: k < |s.locals| && TooLong(s, k))
  }

  /** What the receiver stored for entry k, if it stored anything. */
  ghost predicate Stored(s: Exchange, k: nat, data: Option<bytes>)
    requires s.Ok() && k < |s.locals|
  {
    if s.dry then data == None
    else s.files[k].Some? && data.Some? && Arrives(s.seed, s.locals[k].copy, s.files[k].value, Ok(data.value))
  }

  lemma {:induction false} HandledStored(s: Exchange, xs: seq<Sent>)
    requires s.Ok() && AllSentOk(s, xs) && Handled(s.dry, xs).Ok?
    ensures var list := Handled(s.dry, xs).value.0;
      && |list| == |xs|
      && forall k | 0 <= k < |xs| :: list[k].0 == xs[k].index && Stored(s, xs[k].index, list[k].1)
  {
    if xs != [] {
      HandledStored(s, xs[1..]);
      assert SentOk(s, xs[0]);
      assert forall k | 0 < k < |xs| :: xs[k] == xs[1..][k - 1];
    }
  }

  lemma {:induction false} HandledStops(s: Exchange, xs: seq<Sent>)
    requires s.Ok() && AllSentOk(s, xs) && Handled(s.dry, xs).Err?
    ensures StopsFor(s, Handled(s.dry, xs).error)
  {
    assert SentOk(s, xs[0]);
    if !s.dry && xs[0].out.Err? {
      assert Collides(s, xs[0].index) || TooLong(s, xs[0].index);
    } else {
      HandledStops(s, xs[1..]);
    }
  }

  /** The stream at the other end: only what the server writes is multiplexed (client.go). */
  method Deliver(c: Conn, multiplexed: bool) returns (stream: bytes)
    requires c.Framable()
    ensures stream == c.wr
  {
    if !multiplexed {
      return c.wr;
    }
    ConnSurvives(c, MAX_MESSAGE_SIZE);
    stream := ReadStream(Framed(c.writes), MAX_MESSAGE_SIZE).value;
  }

  /** The files of a whole session. Every answered index is handled once, in order, and each file arrives
      as `Arrives` says; the session ends early only by a panic of the sender, by a file whose sums collide
      or by one whose geometry is refused. In a dry run nothing is stored. What the server writes goes
      through messages. */
  method SynchronizeAll(s: Exchange, senderServes: bool) returns (r: Result<seq<(nat, Option<bytes>)>>)
    requires s.Ok()
    ensures r == Err(Panic) <==> s.SomeFatalFrom(0)
    ensures r.Ok? ==>
      && |r.value| == |s.AnsweredFrom(0)|
      && forall k | 0 <= k < |r.value| ::
           r.value[k].0 == s.AnsweredFrom(0)[k] < |s.locals| && Stored(s, r.value[k].0, r.value[k].1)
    ensures r.Err? && r.error != Panic ==> StopsFor(s, r.error)
  {
    var generator := new Conn([]);
    GenerateFiles(generator, s);
    var requests := Deliver(generator, !senderServes);
    NothingBefore(Joined(s.Requests(), 0) + MARKS);
    NothingMore(MARKS);
    var conn := new Conn(requests);
    var st := new Transfer(conn, s.seed);
    var done, sent := SendFiles(st, s, []);
    if done.Err? {
      return Err(done.error);
    }
    var replies := Deliver(conn, senderServes);
    NothingBefore(RepliesOf(sent) + MARKS);
    var receiver := new Conn(replies);
    if Handled(s.dry, sent).Ok? {
      HandledStored(s, sent);
    } else {
      HandledStops(s, sent);
    }
    r := RecvFiles(receiver, s, sent, []);
  }
}
