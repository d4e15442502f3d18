/** The session: generator, sender and receiver as three processes over two bounded FIFO channels.
    One step of the model is one write or one read of one of them; all interleavings are runs. */
module Session {
  import opened Bytes

  /** What travels: int32 numbers (file indices, and -1 as mark), the block sums or the tokens of a
      file, labelled with the file they were written for, and the statistics at the end. */
  datatype Item = Num(n: int) | Sums(of: nat) | Data(of: nat) | Stat

  const MARK := Num(-1)

  /** The files the generator asks for, in file list order; the files the sender can open; the two
      sides' DryRun options; whether the receiver reads the statistics; how much a channel holds. */
  datatype Config = Config(reqs: seq<nat>, opens: set<nat>, dryR: bool, dryS: bool, report: bool, cap: nat)

  /** SendFiles (sender.go) up to SLast, then the end of Do (do.go). */
  datatype SenderPc =
    | SRead | SSums(i: nat) | SIndex(i: nat) | SData(i: nat) | SAck | SLast
    | SStats(k: nat) | SBye | SDone | SFailed

  /** RecvFiles (receiver.go) up to REnd, then the end of Do (do.go). */
  datatype ReceiverPc =
    | RRead | RData(i: nat) | REnd | RStats(k: nat) | RBye | RDone | RFailed

  /** The sender, with the requests it has taken and all it has read. */
  datatype Sending = Sending(pc: SenderPc, phase: nat, taken: seq<nat>, seen: seq<Item>)

  /** The receiver, with the files it has finished and all it has read. */
  datatype Receiving = Receiving(pc: ReceiverPc, phase: nat, handled: seq<nat>, seen: seq<Item>)

  /** `gTodo` is what the generator has still to write. `decoded` pairs, for every payload, the file it
      was decoded as with the file it was written for. */
  datatype State = State(gTodo: seq<Item>, up: seq<Item>, snd: Sending, down: seq<Item>, rcv: Receiving,
                         decoded: seq<(nat, nat)>)

  datatype Process = Generator | Sender | Receiver

  // ---------- The processes ----------

  /** generator.go: recvGenerator writes the index and, outside a dry run, the sums. */
  function Ask(i: nat, dry: bool): seq<Item> { if dry then [Num(i)] else [Num(i), Sums(i)] }

  function Asks(reqs: seq<nat>, dry: bool): seq<Item> {
    if reqs == [] then [] else Ask(reqs[0], dry) + Asks(reqs[1..], dry)
  }

  function Init(c: Config): State {
    State(Asks(c.reqs, c.dryR) + [MARK, MARK], [], Sending(SRead, 0, [], []), [], Receiving(RRead, 0, [], []), [])
  }

  function GeneratorStep(c: Config, st: State): Option<State> {
    if st.gTodo != [] && |st.up| < c.cap
    then Some(st.(gTodo := st.gTodo[1..], up := st.up + [st.gTodo[0]]))
    else None
  }

  /** What the sender writes next, if it is about to write, and where it is then. */
  function SenderOut(c: Config, s: SenderPc): Option<(Item, SenderPc)> {
    match s
    case SIndex(i) => Some((Num(i), if c.dryS then SRead else SData(i)))
    case SData(i) => Some((Data(i), SRead))
    case SAck => Some((MARK, SRead))
    case SLast => Some((MARK, SStats(0)))
    case SStats(k) => Some((Stat, if k + 1 < 3 then SStats(k + 1) else SBye))
    case _ => None
  }

  predicate SenderReads(s: SenderPc) { s.SRead? || s.SSums? || s.SBye? }

  /** What reading an item makes of the sender. The first mark is acknowledged, the second one ends
      the loop; after the statistics only a mark is accepted. */
  function SenderIn(c: Config, snd: Sending, x: Item): Sending {
    SenderMove(c, snd, x).(seen := snd.seen + [x])
  }

  function SenderMove(c: Config, snd: Sending, x: Item): Sending {
    match snd.pc
    case SRead =>
      if x == MARK then if snd.phase == 0 then snd.(pc := SAck, phase := 1) else snd.(pc := SLast)
      else if x.Num? && x.n >= 0 then snd.(pc := if c.dryS then SIndex(x.n) else SSums(x.n), taken := snd.taken + [x.n])
      else snd.(pc := SFailed)
    case SSums(i) => snd.(pc := if x.Sums? then if i in c.opens then SIndex(i) else SRead else SFailed)
    case _ => snd.(pc := if x == MARK then SDone else SFailed)
  }

  /** The payload a sender or receiver decodes, with the file it takes it for. */
  function SenderDecodes(snd: Sending, x: Item): seq<(nat, nat)> {
    if snd.pc.SSums? && x.Sums? then [(snd.pc.i, x.of)] else []
  }

  function ReceiverDecodes(rcv: Receiving, x: Item): seq<(nat, nat)> {
    if rcv.pc.RData? && x.Data? then [(rcv.pc.i, x.of)] else []
  }

  /** sender.go: SendFiles, and do.go: Do from line 39 on. */
  function SenderStep(c: Config, st: State): Option<State> {
    var out := SenderOut(c, st.snd.pc);
    if out.Some? then
      if |st.down| < c.cap
      then Some(st.(down := st.down + [out.value.0], snd := st.snd.(pc := out.value.1)))
      else None
    else if SenderReads(st.snd.pc) && st.up != [] then
      var x := st.up[0];
      Some(st.(up := st.up[1..], snd := SenderIn(c, st.snd, x), decoded := st.decoded + SenderDecodes(st.snd, x)))
    else None
  }

  predicate ReceiverReads(r: ReceiverPc) { r.RRead? || r.RData? || r.RStats? }

  function ReceiverIn(c: Config, rcv: Receiving, x: Item): Receiving {
    ReceiverMove(c, rcv, x).(seen := rcv.seen + [x])
  }

  function ReceiverMove(c: Config, rcv: Receiving, x: Item): Receiving {
    match rcv.pc
    case RRead =>
      if x == MARK then if rcv.phase == 0 then rcv.(phase := 1) else rcv.(pc := REnd)
      else if x.Num? && x.n >= 0 then
        if c.dryR then rcv.(handled := rcv.handled + [x.n]) else rcv.(pc := RData(x.n))
      else rcv.(pc := RFailed)
    case RData(i) =>
      if x.Data? then rcv.(pc := RRead, handled := rcv.handled + [i]) else rcv.(pc := RFailed)
    case RStats(k) => rcv.(pc := if x != Stat then RFailed else if k + 1 < 3 then RStats(k + 1) else RBye)
    case _ => rcv
  }

  /** receiver.go: RecvFiles, and do.go: Do from line 48 on; it waits for the generator at REnd. */
  function ReceiverStep(c: Config, st: State): Option<State> {
    if ReceiverReads(st.rcv.pc) then
      if st.down == [] then None
      else
        var x := st.down[0];
        Some(st.(down := st.down[1..], rcv := ReceiverIn(c, st.rcv, x),
                 decoded := st.decoded + ReceiverDecodes(st.rcv, x)))
    else if st.rcv.pc.REnd? && st.gTodo == [] then
      Some(st.(rcv := st.rcv.(pc := if c.report then RStats(0) else RBye)))
    else if st.rcv.pc.RBye? && |st.up| < c.cap then
      Some(st.(up := st.up + [MARK], rcv := st.rcv.(pc := RDone)))
    else None
  }

  function Step(c: Config, st: State, p: Process): Option<State> {
    match p
    case Generator => GeneratorStep(c, st)
    case Sender => SenderStep(c, st)
    case Receiver => ReceiverStep(c, st)
  }

  /** Whether an item is of the kind that the sender or the receiver is about to read. */
  predicate Fitting(st: State, p: Process) {
    match p
    case Generator => true
    case Sender =>
      SenderReads(st.snd.pc) && st.up != [] ==>
        var x := st.up[0];
        if st.snd.pc.SRead? then x.Num? && x.n >= -1 else if st.snd.pc.SSums? then x.Sums? else x == Num(-1)
    case Receiver =>
      ReceiverReads(st.rcv.pc) && st.down != [] ==>
        var x := st.down[0];
        if st.rcv.pc.RRead? then x.Num? && x.n >= -1 else if st.rcv.pc.RData? then x.Data? else x.Stat?
  }

  /** A process that has not failed fails in a step if and only if it reads an item of another kind. */
  lemma MisreadingFails(c: Config, st: State, p: Process)
    requires !Failed(st) && Step(c, st, p).Some?
    ensures Failed(Step(c, st, p).value) <==> !Fitting(st, p)
  {
  }

  ghost predicate Next(c: Config, st: State, st': State) {
    exists p :: Step(c, st, p) == Some(st')
  }

  /** A finite run: consecutive states from the initial one, each by a step of some process. */
  ghost predicate Run(c: Config, run: seq<State>) {
    |run| > 0 && run[0] == Init(c) && forall k | 0 <= k < |run| - 1 :: NextAt(c, run, k)
  }

  ghost predicate NextAt(c: Config, run: seq<State>, k: nat)
    requires k < |run| - 1
  {
    Next(c, run[k], run[k + 1])
  }

  predicate Final(st: State) { st.gTodo == [] && st.snd.pc == SDone && st.rcv.pc == RDone }

  predicate Failed(st: State) { st.snd.pc == SFailed || st.rcv.pc == RFailed }

  // ---------- What is still to come ----------

  predicate Answers(c: Config, i: nat) { c.dryS || i in c.opens }

  /** The requested files that the sender answers. */
  function Answered(c: Config, reqs: seq<nat>): seq<nat> {
    if reqs == [] then [] else (if Answers(c, reqs[0]) then [reqs[0]] else []) + Answered(c, reqs[1..])
  }

  function Reply(i: nat, dry: bool): seq<Item> { if dry then [Num(i)] else [Num(i), Data(i)] }

  function Replies(files: seq<nat>, dry: bool): seq<Item> {
    if files == [] then [] else Reply(files[0], dry) + Replies(files[1..], dry)
  }

  const STATS := [Stat, Stat, Stat]

  /** What the sender, where it is, will read to the end. */
  function SenderExpects(c: Config, snd: Sending): seq<Item>
    requires |snd.taken| <= |c.reqs|
  {
    var asks := Asks(c.reqs[|snd.taken|..], c.dryS) + [MARK, MARK, MARK];
    match snd.pc
    case SRead => if snd.phase == 0 then asks else [MARK, MARK]
    case SSums(i) => [Sums(i)] + asks
    case SIndex(i) => asks
    case SData(i) => asks
    case SAck => [MARK, MARK]
    case SDone => []
    case _ => [MARK]
  }

  /** What the sender will write to the end. */
  function SenderOwes(c: Config, snd: Sending): seq<Item>
    requires |snd.taken| <= |c.reqs|
  {
    var rest := Replies(Answered(c, c.reqs[|snd.taken|..]), c.dryS) + ([MARK, MARK] + STATS);
    match snd.pc
    case SRead => if snd.phase == 0 then rest else [MARK] + STATS
    case SSums(i) => (if i in c.opens then Reply(i, c.dryS) else []) + rest
    case SIndex(i) => Reply(i, c.dryS) + rest
    case SData(i) => [Data(i)] + rest
    case SAck => [MARK, MARK] + STATS
    case SLast => [MARK] + STATS
    case SStats(k) => if k < 3 then STATS[k..] else []
    case _ => []
  }

  /** What the receiver will read to the end; without a report the statistics stay unread. */
  function ReceiverExpects(c: Config, rcv: Receiving): seq<Item>
    requires |rcv.handled| <= |Answered(c, c.reqs)|
  {
    var todo := Answered(c, c.reqs)[|rcv.handled|..];
    match rcv.pc
    case RRead => if rcv.phase == 0 then Replies(todo, c.dryR) + ([MARK, MARK] + STATS) else [MARK] + STATS
    case RData(i) => [Data(i)] + Replies(if todo == [] then [] else todo[1..], c.dryR) + ([MARK, MARK] + STATS)
    case REnd => STATS
    case RStats(k) => if k < 3 then STATS[k..] else []
    case _ => if c.report then [] else STATS
  }

  function Goodbye(rcv: Receiving): seq<Item> { if rcv.pc == RDone then [] else [MARK] }

  // ---------- The invariant ----------

  /** All that travels to the sender: the requests, two marks and the goodbye. */
  function UpScript(c: Config): seq<Item> { Asks(c.reqs, c.dryS) + [Num(-1), Num(-1), Num(-1)] }

  /** All that travels to the receiver: the replies, two marks and three statistics. */
  function DownScript(c: Config): seq<Item> {
    Replies(Answered(c, c.reqs), c.dryR) + ([MARK, MARK] + STATS)
  }

  ghost predicate SendingOk(c: Config, snd: Sending) {
    && snd.phase <= 1 && snd.taken <= c.reqs
    && match snd.pc
       case SRead => snd.phase == 1 ==> snd.taken == c.reqs
       case SSums(i) => snd.phase == 0 && !c.dryS
       case SIndex(i) => snd.phase == 0
       case SData(i) => snd.phase == 0 && !c.dryS
       case SStats(k) => k < 3 && snd.phase == 1 && snd.taken == c.reqs
       case SFailed => false
       case _ => snd.phase == 1 && snd.taken == c.reqs
  }

  ghost predicate ReceivingOk(c: Config, rcv: Receiving) {
    && rcv.phase <= 1 && rcv.handled <= Answered(c, c.reqs)
    && match rcv.pc
       case RRead => rcv.phase == 1 ==> rcv.handled == Answered(c, c.reqs)
       case RData(i) => rcv.phase == 0 && !c.dryR && rcv.handled + [i] <= Answered(c, c.reqs)
       case RStats(k) => k < 3 && c.report && rcv.phase == 1 && rcv.handled == Answered(c, c.reqs)
       case RFailed => false
       case _ => rcv.phase == 1 && rcv.handled == Answered(c, c.reqs)
  }

  predicate GeneratorWaited(rcv: Receiving) { rcv.pc.RStats? || rcv.pc.RBye? || rcv.pc.RDone? }

  /** Both sides agree on dry runs, or there is nothing to disagree on. */
  predicate Agreeing(c: Config) { c.dryR == c.dryS || c.reqs == [] }

  ghost predicate Matched(decoded: seq<(nat, nat)>) {
    forall k | 0 <= k < |decoded| :: decoded[k].0 == decoded[k].1
  }

  ghost predicate Inv(c: Config, st: State) {
    && SendingOk(c, st.snd) && ReceivingOk(c, st.rcv)
    && (GeneratorWaited(st.rcv) ==> st.gTodo == [])
    && st.up + (st.gTodo + Goodbye(st.rcv)) == SenderExpects(c, st.snd)
    && st.down + SenderOwes(c, st.snd) == ReceiverExpects(c, st.rcv)
    && Matched(st.decoded)
    && Transcribed(c, st)
  }

  /** What was read and what is still expected make up the whole transcript, in both directions. */
  ghost predicate Transcribed(c: Config, st: State)
    requires |st.snd.taken| <= |c.reqs| && |st.rcv.handled| <= |Answered(c, c.reqs)|
  {
    && st.snd.seen + SenderExpects(c, st.snd) == UpScript(c)
    && st.rcv.seen + ReceiverExpects(c, st.rcv) == DownScript(c)
  }

  /** Reading moves the head of what is expected to the end of what was read. */
  lemma Seeing<T>(seen: seq<T>, all: seq<T>)
    requires all != []
    ensures (seen + [all[0]]) + all[1..] == seen + all
  {
    assert all == [all[0]] + all[1..];
    Assoc(seen, [all[0]], all[1..]);
  }

  /** Reading the head of a channel takes the head of what is to come. */
  lemma Taking<T>(q: seq<T>, rest: seq<T>, all: seq<T>)
    requires q != [] && q + rest == all
    ensures all != [] && all[0] == q[0] && q[1..] + rest == all[1..]
  {
  }

  /** Writing moves the head of what is owed to the end of the channel. */
  lemma Putting<T>(q: seq<T>, x: T, owed: seq<T>)
    ensures (q + [x]) + owed == q + ([x] + owed)
  {
  }

  lemma InitInv(c: Config)
    requires Agreeing(c)
    ensures Inv(c, Init(c))
  {
    var st := Init(c);
    assert c.reqs[0..] == c.reqs && Answered(c, c.reqs)[0..] == Answered(c, c.reqs);
    Assoc(Asks(c.reqs, c.dryR), [MARK, MARK], [MARK]);
    assert [] + (st.gTodo + [MARK]) == st.gTodo + [MARK];
    assert [] + SenderOwes(c, st.snd) == SenderOwes(c, st.snd);
    assert [] + UpScript(c) == UpScript(c) && [] + DownScript(c) == DownScript(c);
  }

  lemma GeneratorKeeps(c: Config, st: State)
    requires Inv(c, st) && GeneratorStep(c, st).Some?
    ensures Inv(c, GeneratorStep(c, st).value)
  {
    var x, rest := st.gTodo[0], st.gTodo[1..];
    assert st.gTodo == [x] + rest;
    Putting(st.up, x, rest + Goodbye(st.rcv));
    Assoc([x], rest, Goodbye(st.rcv));
  }

  lemma AsksNext(reqs: seq<nat>, n: nat, dry: bool)
    requires n < |reqs|
    ensures Asks(reqs[n..], dry) == Ask(reqs[n], dry) + Asks(reqs[n + 1..], dry)
  {
    assert reqs[n..][1..] == reqs[n + 1..];
  }

  lemma AnsweredNext(c: Config, n: nat)
    requires n < |c.reqs|
    ensures Answered(c, c.reqs[n..])
         == (if Answers(c, c.reqs[n]) then [c.reqs[n]] else []) + Answered(c, c.reqs[n + 1..])
  {
    assert c.reqs[n..][1..] == c.reqs[n + 1..];
  }

  lemma RepliesNext(c: Config, n: nat)
    requires n < |c.reqs|
    ensures Replies(Answered(c, c.reqs[n..]), c.dryS)
         == (if Answers(c, c.reqs[n]) then Reply(c.reqs[n], c.dryS) else [])
            + Replies(Answered(c, c.reqs[n + 1..]), c.dryS)
  {
    AnsweredNext(c, n);
    var rest := Answered(c, c.reqs[n + 1..]);
    assert ([c.reqs[n]] + rest)[1..] == rest && [] + rest == rest;
  }

  /** The sender's input is what it expects, and taking it changes neither side's future. */
  lemma SenderInKeeps(c: Config, snd: Sending)
    requires SendingOk(c, snd) && SenderReads(snd.pc)
    ensures var all := SenderExpects(c, snd);
      && all != []
      && var snd' := SenderIn(c, snd, all[0]);
      && SendingOk(c, snd')
      && SenderExpects(c, snd') == all[1..]
      && SenderOwes(c, snd') == SenderOwes(c, snd)
      && Matched(SenderDecodes(snd, all[0])) && Decodes(SenderDecodes(snd, all[0]), all[0])
  {
    var n := |snd.taken|;
    if snd.pc == SRead && snd.phase == 0 && n < |c.reqs| {
      var i := c.reqs[n];
      AsksNext(c.reqs, n, c.dryS);
      RepliesNext(c, n);
      Assoc(Ask(i, c.dryS), Asks(c.reqs[n + 1..], c.dryS), [MARK, MARK, MARK]);
      Assoc(if Answers(c, i) then Reply(i, c.dryS) else [], Replies(Answered(c, c.reqs[n + 1..]), c.dryS),
            [MARK, MARK] + STATS);
      assert snd.taken + [i] <= c.reqs;
    } else if snd.pc == SRead && snd.phase == 0 {
      assert c.reqs[n..] == [] && snd.taken == c.reqs;
    }
  }

  /** What the sender writes is the head of what it owes, and it expects the same as before. */
  lemma SenderOutKeeps(c: Config, snd: Sending)
    requires SendingOk(c, snd) && SenderOut(c, snd.pc).Some?
    ensures var (x, pc) := SenderOut(c, snd.pc).value;
      && var snd' := snd.(pc := pc);
      && SendingOk(c, snd')
      && SenderOwes(c, snd) == [x] + SenderOwes(c, snd')
      && SenderExpects(c, snd') == SenderExpects(c, snd)
  {
    match snd.pc
    case SIndex(i) =>
      var rest := Replies(Answered(c, c.reqs[|snd.taken|..]), c.dryS) + ([MARK, MARK] + STATS);
      assert Reply(i, c.dryS) + rest == [Num(i)] + ((if c.dryS then [] else [Data(i)]) + rest);
      assert [] + rest == rest;
    case SStats(k) => assert STATS[k..] == [Stat] + STATS[k + 1..] && STATS[3..] == [];
    case _ =>
  }

  lemma SenderKeeps(c: Config, st: State)
    requires Inv(c, st) && SenderStep(c, st).Some?
    ensures Inv(c, SenderStep(c, st).value)
  {
    var out := SenderOut(c, st.snd.pc);
    if out.Some? {
      SenderOutKeeps(c, st.snd);
      Putting(st.down, out.value.0, SenderOwes(c, st.snd.(pc := out.value.1)));
    } else {
      SenderInKeeps(c, st.snd);
      Taking(st.up, st.gTodo + Goodbye(st.rcv), SenderExpects(c, st.snd));
      Seeing(st.snd.seen, SenderExpects(c, st.snd));
    }
  }

  /** The receiver's input is what it expects, and taking it leaves the rest. */
  lemma ReceiverInKeeps(c: Config, rcv: Receiving)
    requires Agreeing(c) && ReceivingOk(c, rcv) && ReceiverReads(rcv.pc)
    ensures var all := ReceiverExpects(c, rcv);
      && all != []
      && var rcv' := ReceiverIn(c, rcv, all[0]);
      && ReceivingOk(c, rcv')
      && ReceiverExpects(c, rcv') == all[1..]
      && Goodbye(rcv') == Goodbye(rcv) && (GeneratorWaited(rcv') ==> GeneratorWaited(rcv))
      && Matched(ReceiverDecodes(rcv, all[0])) && Decodes(ReceiverDecodes(rcv, all[0]), all[0])
  {
    match rcv.pc
    case RRead => if rcv.phase == 0 { ReceiverTakesIndex(c, rcv); }
    case RData(i) => ReceiverTakesData(c, rcv);
    case RStats(k) => assert STATS[k..][1..] == STATS[k + 1..] && STATS[3..] == [];
  }

  lemma ReceiverTakesIndex(c: Config, rcv: Receiving)
    requires Agreeing(c) && ReceivingOk(c, rcv) && rcv.pc.RRead? && rcv.phase == 0
    ensures var all := ReceiverExpects(c, rcv);
      && all != []
      && var rcv' := ReceiverIn(c, rcv, all[0]);
      && ReceivingOk(c, rcv') && ReceiverExpects(c, rcv') == all[1..]
      && rcv'.pc != RDone && !GeneratorWaited(rcv')
  {
    var a, n := Answered(c, c.reqs), |rcv.handled|;
    if n < |a| {
      assert a[n..][1..] == a[n + 1..];
      Assoc(Reply(a[n], c.dryR), Replies(a[n + 1..], c.dryR), [MARK, MARK] + STATS);
      assert rcv.handled + [a[n]] <= a;
    } else {
      assert a[n..] == [] && rcv.handled == a;
    }
  }

  lemma ReceiverTakesData(c: Config, rcv: Receiving)
    requires ReceivingOk(c, rcv) && rcv.pc.RData?
    ensures var all := ReceiverExpects(c, rcv);
      && all != [] && all[0] == Data(rcv.pc.i)
      && var rcv' := ReceiverIn(c, rcv, all[0]);
      && ReceivingOk(c, rcv') && ReceiverExpects(c, rcv') == all[1..]
      && rcv'.pc == RRead
  {
    var a, n, i := Answered(c, c.reqs), |rcv.handled|, rcv.pc.i;
    assert a[n] == (rcv.handled + [i])[n] && a[n..][1..] == a[n + 1..];
    Assoc([Data(i)], Replies(a[n + 1..], c.dryR), [MARK, MARK] + STATS);
  }

  lemma ReceiverKeeps(c: Config, st: State)
    requires Agreeing(c) && Inv(c, st) && ReceiverStep(c, st).Some?
    ensures Inv(c, ReceiverStep(c, st).value)
  {
    if ReceiverReads(st.rcv.pc) {
      ReceiverReadKeeps(c, st);
    } else if st.rcv.pc.REnd? {
      assert STATS[0..] == STATS;
    } else {
      GoodbyeKeeps(c, st);
    }
  }

  lemma ReceiverReadKeeps(c: Config, st: State)
    requires Agreeing(c) && Inv(c, st) && ReceiverReads(st.rcv.pc) && st.down != []
    ensures Inv(c, ReceiverStep(c, st).value)
  {
    ReceiverInKeeps(c, st.rcv);
    Taking(st.down, SenderOwes(c, st.snd), ReceiverExpects(c, st.rcv));
    Seeing(st.rcv.seen, ReceiverExpects(c, st.rcv));
  }

  lemma GoodbyeKeeps(c: Config, st: State)
    requires Inv(c, st) && st.rcv.pc.RBye? && |st.up| < c.cap
    ensures Inv(c, ReceiverStep(c, st).value)
  {
    assert st.gTodo == [];
    assert st.up + ([] + [MARK]) == (st.up + [MARK]) + ([] + []);
  }

  lemma StepKeeps(c: Config, st: State, p: Process)
    requires Agreeing(c) && Inv(c, st) && Step(c, st, p).Some?
    ensures Inv(c, Step(c, st, p).value)
  {
    match p
    case Generator => GeneratorKeeps(c, st);
    case Sender => SenderKeeps(c, st);
    case Receiver => ReceiverKeeps(c, st);
  }

  // ---------- Safety ----------

  lemma {:induction false} RepliesLength(files: seq<nat>, dry: bool)
    ensures |Replies(files, dry)| == if dry then |files| else 2 * |files|
  {
    if files != [] {
      RepliesLength(files[1..], dry);
    }
  }

  /** Each request the sender has not taken yet is owed at least as much as one unfinished file is worth. */
  lemma OwedAtLeast(c: Config, snd: Sending)
    requires SendingOk(c, snd) && snd.phase == 0
    ensures var n := |Answered(c, c.reqs[|snd.taken|..])|;
      |SenderOwes(c, snd)| >= 5 + (if c.dryS then n else 2 * n)
  {
    RepliesLength(Answered(c, c.reqs[|snd.taken|..]), c.dryS);
  }

  lemma ExpectedAtMost(c: Config, rcv: Receiving)
    requires ReceivingOk(c, rcv)
    ensures rcv.phase == 1 ==> |ReceiverExpects(c, rcv)| <= 4
    ensures var n := |Answered(c, c.reqs)| - |rcv.handled|;
      |ReceiverExpects(c, rcv)| <= 5 + (if c.dryR then n else 2 * n)
  {
    var todo := Answered(c, c.reqs)[|rcv.handled|..];
    RepliesLength(todo, c.dryR);
    if todo != [] {
      RepliesLength(todo[1..], c.dryR);
    }
  }

  lemma HandledAfterTaken(c: Config, st: State)
    requires Agreeing(c) && Inv(c, st)
    ensures st.rcv.handled <= Answered(c, st.snd.taken)
    ensures st.rcv.phase <= st.snd.phase
  {
    var n := |st.snd.taken|;
    assert c.reqs == st.snd.taken + c.reqs[n..];
    AnsweredSplit(c, st.snd.taken, c.reqs[n..]);
    ExpectedAtMost(c, st.rcv);
    if st.snd.phase == 0 {
      OwedAtLeast(c, st.snd);
      assert |SenderOwes(c, st.snd)| <= |ReceiverExpects(c, st.rcv)|;
    }
  }

  /** How many of its two marks, the last it writes, the generator has written. */
  function MarksWritten(st: State): nat { if |st.gTodo| >= 2 then 0 else 2 - |st.gTodo| }

  /** Whether the sender has left its loop. */
  predicate PastLoop(s: SenderPc) { s.SLast? || s.SStats? || s.SBye? || s.SDone? }

  lemma SenderAfterMarks(c: Config, st: State)
    requires Inv(c, st)
    ensures st.snd.phase <= MarksWritten(st)
    ensures PastLoop(st.snd.pc) ==> MarksWritten(st) == 2
  {
    assert |st.up + (st.gTodo + Goodbye(st.rcv))| == |SenderExpects(c, st.snd)|;
  }

  /** Every payload for a file that was read is in the log, under the file it was written for, and nothing else. */
  ghost predicate Logged(st: State, f: nat) {
    DecodedFrom(st.decoded, f) == PayloadsFor(st.snd.seen, f) + PayloadsFor(st.rcv.seen, f)
  }

  function PayloadFor(x: Item, f: nat): nat { if (x.Sums? || x.Data?) && x.of == f then 1 else 0 }

  function PayloadsFor(items: seq<Item>, f: nat): nat {
    if items == [] then 0 else PayloadsFor(items[..|items| - 1], f) + PayloadFor(items[|items| - 1], f)
  }

  function DecodedFrom(decoded: seq<(nat, nat)>, f: nat): nat {
    if decoded == [] then 0
    else DecodedFrom(decoded[..|decoded| - 1], f) + if decoded[|decoded| - 1].1 == f then 1 else 0
  }

  /** What an item is decoded as. */
  ghost predicate Decodes(more: seq<(nat, nat)>, x: Item) {
    if x.Sums? || x.Data? then |more| == 1 && more[0].1 == x.of else more == []
  }

  /** One more item is read, and decoded if it is a payload. */
  lemma LogStep(decoded: seq<(nat, nat)>, more: seq<(nat, nat)>, seen: seq<Item>, x: Item, f: nat)
    requires Decodes(more, x)
    ensures DecodedFrom(decoded + more, f) == DecodedFrom(decoded, f) + PayloadFor(x, f)
    ensures PayloadsFor(seen + [x], f) == PayloadsFor(seen, f) + PayloadFor(x, f)
  {
    assert (seen + [x])[..|seen|] == seen;
    if more == [] {
      assert decoded + more == decoded;
    } else {
      assert (decoded + more)[..|decoded|] == decoded;
    }
  }

  lemma SenderLogs(c: Config, st: State, f: nat)
    requires Inv(c, st) && Logged(st, f) && SenderOut(c, st.snd.pc).None? && SenderStep(c, st).Some?
    ensures Logged(SenderStep(c, st).value, f)
  {
    SenderInKeeps(c, st.snd);
    Taking(st.up, st.gTodo + Goodbye(st.rcv), SenderExpects(c, st.snd));
    LogStep(st.decoded, SenderDecodes(st.snd, st.up[0]), st.snd.seen, st.up[0], f);
  }

  lemma ReceiverLogs(c: Config, st: State, f: nat)
    requires Agreeing(c) && Inv(c, st) && Logged(st, f) && ReceiverReads(st.rcv.pc) && ReceiverStep(c, st).Some?
    ensures Logged(ReceiverStep(c, st).value, f)
  {
    ReceiverInKeeps(c, st.rcv);
    Taking(st.down, SenderOwes(c, st.snd), ReceiverExpects(c, st.rcv));
    LogStep(st.decoded, ReceiverDecodes(st.rcv, st.down[0]), st.rcv.seen, st.down[0], f);
  }

  lemma LoggedKeeps(c: Config, st: State, p: Process, f: nat)
    requires Agreeing(c) && Inv(c, st) && Logged(st, f) && Step(c, st, p).Some?
    ensures Logged(Step(c, st, p).value, f)
  {
    match p
    case Generator =>
    case Sender => if SenderOut(c, st.snd.pc).None? { SenderLogs(c, st, f); }
    case Receiver => if ReceiverReads(st.rcv.pc) { ReceiverLogs(c, st, f); }
  }

  lemma AllLogged(c: Config, run: seq<State>, k: nat, f: nat)
    requires Agreeing(c) && Run(c, run) && k < |run|
    ensures Logged(run[k], f)
  {
    var holds := (st, b) => Logged(st, f);
    forall j: nat | Place(j) && j < |run| - 1 && holds(run[j], 0 - j) ensures holds(run[j + 1], 0 - (j + 1)) {
      RunsEnd(c, run, j);
      assert NextAt(c, run, j);
      var p :| Step(c, run[j], p) == Some(run[j + 1]);
      LoggedKeeps(c, run[j], p, f);
    }
    Along(run, holds, 0, k);
  }

  /** In every state of every run: nothing is misread; every payload is decoded as the file it was
      written for; the sender serves the requests in order and without gaps; the receiver has finished
      the first of the answered files, in order; and no phase overtakes the one before it: the
      receiver's is not ahead of the sender's, nor the sender's of the generator's marks. */
  lemma Safety(c: Config, run: seq<State>, k: nat)
    requires Agreeing(c) && Run(c, run) && k < |run|
    ensures !Failed(run[k]) && Matched(run[k].decoded)
    ensures forall f :: Logged(run[k], f)
    ensures run[k].snd.taken <= c.reqs
    ensures run[k].rcv.handled <= Answered(c, run[k].snd.taken)
    ensures run[k].rcv.phase <= run[k].snd.phase <= Min(1, MarksWritten(run[k]))
    ensures PastLoop(run[k].snd.pc) ==> MarksWritten(run[k]) == 2
  {
    RunsEnd(c, run, k);
    forall f ensures Logged(run[k], f) {
      AllLogged(c, run, k, f);
    }
    SenderAfterMarks(c, run[k]);
    HandledAfterTaken(c, run[k]);
  }

  /** If every requested file opens, or nothing is opened, the answered files are the requested ones. */
  lemma {:induction false} AllAnswered(c: Config, reqs: seq<nat>)
    requires forall i | 0 <= i < |reqs| :: Answers(c, reqs[i])
    ensures Answered(c, reqs) == reqs
  {
    if reqs != [] {
      AllAnswered(c, reqs[1..]);
    }
  }

  /** Outside a dry run they are the requested files that open, each as often as it is requested. */
  lemma {:induction false} AnsweredExactly(c: Config, reqs: seq<nat>, i: nat)
    ensures multiset(Answered(c, reqs))[i] == if c.dryS || i in c.opens then multiset(reqs)[i] else 0
  {
    if reqs != [] {
      AnsweredExactly(c, reqs[1..], i);
      assert reqs == [reqs[0]] + reqs[1..];
    }
  }

  lemma {:induction false} AnsweredSplit(c: Config, a: seq<nat>, b: seq<nat>)
    ensures Answered(c, a + b) == Answered(c, a) + Answered(c, b)
  {
    if a == [] {
      assert a + b == b;
    } else {
      assert (a + b)[1..] == a[1..] + b;
      AnsweredSplit(c, a[1..], b);
      Assoc(if Answers(c, a[0]) then [a[0]] else [], Answered(c, a[1..]), Answered(c, b));
    }
  }

  // ---------- Completion ----------

  /** No process can take a step. */
  predicate Stuck(c: Config, st: State) {
    GeneratorStep(c, st).None? && SenderStep(c, st).None? && ReceiverStep(c, st).None?
  }

  /** No reachable state but a final one is stuck, if the channels hold anything and statistics that
      nobody reads have room. */
  lemma Progress(c: Config, st: State)
    requires Agreeing(c) && Inv(c, st) && !Final(st)
    requires c.cap >= 1 && (c.report || c.cap >= 3)
    ensures !Stuck(c, st)
  {
    if GeneratorStep(c, st).None? && SenderStep(c, st).None? {
      ReceiverCanStep(c, st);
    }
  }

  lemma ReceiverCanStep(c: Config, st: State)
    requires Agreeing(c) && Inv(c, st) && !Final(st)
    requires c.cap >= 1 && (c.report || c.cap >= 3)
    requires GeneratorStep(c, st).None? && SenderStep(c, st).None?
    ensures ReceiverStep(c, st).Some?
  {
    if SenderReads(st.snd.pc) {
      SenderInKeeps(c, st.snd);
      assert st.up == [] && st.gTodo == [];
      assert st.up + (st.gTodo + Goodbye(st.rcv)) == Goodbye(st.rcv);
      assert SenderExpects(c, st.snd) == [MARK];
      SenderWaitsForMore(c, st.snd);
      assert st.down + [] == st.down;
    } else if SenderOut(c, st.snd.pc).Some? {
      SenderOutKeeps(c, st.snd);
      assert |st.down| >= c.cap;
    }
  }

  /** A sender that expects no more than the goodbye has nothing left to write. */
  lemma SenderWaitsForMore(c: Config, snd: Sending)
    requires SendingOk(c, snd) && SenderReads(snd.pc) && SenderExpects(c, snd) == [MARK]
    ensures snd.pc == SBye
  {
    var asks := Asks(c.reqs[|snd.taken|..], c.dryS) + [MARK, MARK, MARK];
    assert |asks| >= 3;
  }

  /** Every step leaves less to do: an item counts twice until it is written and once until it is read. */
  function Remaining(c: Config, st: State): nat
    requires |st.snd.taken| <= |c.reqs|
  {
    2 * |st.gTodo + Goodbye(st.rcv)| + |st.up| + 2 * |SenderOwes(c, st.snd)| + |st.down|
    + (match st.rcv.pc case RRead => 2 case RData(i) => 2 case REnd => 1 case _ => 0)
  }

  lemma SenderRunsOut(c: Config, st: State)
    requires Inv(c, st) && SenderStep(c, st).Some?
    ensures |SenderStep(c, st).value.snd.taken| <= |c.reqs|
    ensures Remaining(c, SenderStep(c, st).value) < Remaining(c, st)
  {
    if SenderOut(c, st.snd.pc).Some? {
      SenderOutKeeps(c, st.snd);
    } else {
      SenderInKeeps(c, st.snd);
      Taking(st.up, st.gTodo + Goodbye(st.rcv), SenderExpects(c, st.snd));
    }
  }

  lemma ReceiverReadRunsOut(c: Config, st: State)
    requires Agreeing(c) && Inv(c, st) && ReceiverReads(st.rcv.pc) && ReceiverStep(c, st).Some?
    ensures Remaining(c, ReceiverStep(c, st).value) < Remaining(c, st)
  {
    ReceiverInKeeps(c, st.rcv);
    Taking(st.down, SenderOwes(c, st.snd), ReceiverExpects(c, st.rcv));
  }

  lemma ReceiverRunsOut(c: Config, st: State)
    requires Agreeing(c) && Inv(c, st) && ReceiverStep(c, st).Some?
    ensures Remaining(c, ReceiverStep(c, st).value) < Remaining(c, st)
  {
    if ReceiverReads(st.rcv.pc) {
      ReceiverReadRunsOut(c, st);
    }
  }

  lemma StepsRunOut(c: Config, st: State, p: Process)
    requires Agreeing(c) && Inv(c, st) && Step(c, st, p).Some?
    ensures Inv(c, Step(c, st, p).value)
    ensures Remaining(c, Step(c, st, p).value) < Remaining(c, st)
  {
    StepKeeps(c, st, p);
    match p
    case Generator =>
    case Sender => SenderRunsOut(c, st);
    case Receiver => ReceiverRunsOut(c, st);
  }

  ghost predicate Place(k: int) { true }

  /** What holds at the start of a run, with a bound, and goes over from each place to the next with a
      bound that is one less, holds everywhere. */
  lemma {:induction false} Along<S>(run: seq<S>, holds: (S, int) -> bool, bound: int, k: nat)
    requires k < |run| && holds(run[0], bound)
    requires forall j: nat {:trigger Place(j)} ::
      Place(j) && j < |run| - 1 && holds(run[j], bound - j) ==> holds(run[j + 1], bound - (j + 1))
    ensures holds(run[k], bound - k)
  {
    if k > 0 {
      Along(run, holds, bound, k - 1);
      assert Place(k - 1);
    }
  }

  lemma BoundKept(c: Config, run: seq<State>, j: nat, bound: int)
    requires Agreeing(c) && Run(c, run) && j < |run| - 1 && Inv(c, run[j]) && Remaining(c, run[j]) <= bound - j
    ensures Inv(c, run[j + 1]) && Remaining(c, run[j + 1]) <= bound - (j + 1)
  {
    assert NextAt(c, run, j);
    var p :| Step(c, run[j], p) == Some(run[j + 1]);
    StepsRunOut(c, run[j], p);
  }

  /** No run is longer than what there is to do at its start. */
  lemma RunsEnd(c: Config, run: seq<State>, k: nat)
    requires Agreeing(c) && Run(c, run) && k < |run|
    ensures Inv(c, run[k]) && Remaining(c, run[k]) + k <= Remaining(c, Init(c))
  {
    InitInv(c);
    var bound := Remaining(c, run[0]);
    var holds := (st, b) => Inv(c, st) && Remaining(c, st) <= b;
    forall j: nat | Place(j) && j < |run| - 1 && holds(run[j], bound - j) ensures holds(run[j + 1], bound - (j + 1)) {
      BoundKept(c, run, j, bound);
    }
    Along(run, holds, bound, k);
  }

  /** The end of a run that cannot be continued, once it is final: all files are finished, the channel to
      the sender is empty, and so is the channel to the receiver unless the statistics were not wanted. */
  ghost predicate EndedWell(c: Config, last: State) {
    && last.snd.taken == c.reqs && last.rcv.handled == Answered(c, c.reqs)
    && last.up == [] && last.down == (if c.report then [] else STATS)
    && last.snd.seen == UpScript(c) && last.rcv.seen + last.down == DownScript(c)
  }

  lemma FinalEndedWell(c: Config, st: State)
    requires Inv(c, st) && Final(st)
    ensures EndedWell(c, st)
  {
    NothingMore(st.up);
    NothingMore(st.down);
    NothingMore(st.snd.seen);
    NothingBefore<Item>([]);
  }

  /** How often a file is handled in the end: not at all if it does not open, outside a dry run. */
  function HowOften(c: Config, i: nat): nat {
    if (c.dryR && c.dryS) || i in c.opens then multiset(c.reqs)[i] else 0
  }

  /** A run that cannot be continued has ended well, if the channels hold anything and nobody is left to
      read statistics that do not fit. */
  lemma Completion(c: Config, run: seq<State>)
    requires Agreeing(c) && Run(c, run) && c.cap >= 1 && (c.report || c.cap >= 3)
    ensures var last := run[|run| - 1]; Stuck(c, last) ==> Final(last) && EndedWell(c, last)
    ensures var last := run[|run| - 1];
      Stuck(c, last) ==> forall i: nat :: multiset(last.rcv.handled)[i] == HowOften(c, i)
  {
    var last := run[|run| - 1];
    RunsEnd(c, run, |run| - 1);
    if Stuck(c, last) {
      if !Final(last) {
        Progress(c, last);
      }
      FinalEndedWell(c, last);
      forall i: nat ensures multiset(last.rcv.handled)[i] == HowOften(c, i) {
        AnsweredExactly(c, c.reqs, i);
      }
    }
  }

  // ---------- Without a report ----------

  /** A channel never holds more than its capacity. */
  lemma WithinCapacity(c: Config, run: seq<State>, k: nat)
    requires Run(c, run) && k < |run|
    ensures |run[k].up| <= c.cap && |run[k].down| <= c.cap
  {
    var holds := (st: State, b: int) => |st.up| <= c.cap && |st.down| <= c.cap;
    forall j: nat | Place(j) && j < |run| - 1 && holds(run[j], 0 - j) ensures holds(run[j + 1], 0 - (j + 1)) {
      assert NextAt(c, run, j);
      var p :| Step(c, run[j], p) == Some(run[j + 1]);
    }
    Along(run, holds, 0, k);
  }

  /** Every run goes on to one that cannot be continued. */
  lemma {:induction false} GoOn(c: Config, run: seq<State>) returns (full: seq<State>)
    requires Agreeing(c) && Run(c, run)
    ensures Run(c, full) && Stuck(c, full[|full| - 1])
    decreases Remaining(c, Init(c)) + 1 - |run|
  {
    var last := run[|run| - 1];
    RunsEnd(c, run, |run| - 1);
    if Stuck(c, last) {
      return run;
    }
    var p := if GeneratorStep(c, last).Some? then Generator else if SenderStep(c, last).Some? then Sender else Receiver;
    var next := Step(c, last, p).value;
    StepOf(c, last, p, next);
    Extended(c, run, next);
    full := GoOn(c, run + [next]);
  }

  lemma Extended(c: Config, run: seq<State>, next: State)
    requires Run(c, run) && Next(c, run[|run| - 1], next)
    ensures Run(c, run + [next])
  {
    forall k | 0 <= k < |run| ensures NextAt(c, run + [next], k) {
      if k < |run| - 1 {
        assert NextAt(c, run, k);
      }
    }
  }

  /** Without room for the statistics that nobody reads, every run gets stuck before its end. */
  lemma NoRoom(c: Config, run: seq<State>)
    requires Agreeing(c) && Run(c, run) && !c.report && c.cap < 3
    ensures !Final(run[|run| - 1])
  {
    var last := run[|run| - 1];
    RunsEnd(c, run, |run| - 1);
    WithinCapacity(c, run, |run| - 1);
    if Final(last) {
      FinalEndedWell(c, last);
      assert false;
    }
  }

  /** With channels that hold anything at all, every session completes if and only if the receiver reads
      the statistics or the channel to it has room for all three. */
  lemma CompletesIffRoom(c: Config)
    requires Agreeing(c) && c.cap >= 1
    ensures (forall run | Run(c, run) && Stuck(c, run[|run| - 1]) :: Final(run[|run| - 1])) <==> c.report || c.cap >= 3
  {
    if c.report || c.cap >= 3 {
      forall run | Run(c, run) && Stuck(c, run[|run| - 1]) ensures Final(run[|run| - 1]) {
        Completion(c, run);
      }
    } else {
      var run := GoOn(c, [Init(c)]);
      NoRoom(c, run);
    }
  }

  // ---------- Different DryRun options ----------

  /** A step of a concrete run. */
  lemma StepOf(c: Config, st: State, p: Process, st': State)
    requires Step(c, st, p) == Some(st')
    ensures Next(c, st, st')
  {
  }

  /** If only the receiver makes a dry run, the sender takes what follows the first index for its sums. */
  lemma DryReceiverFails(c: Config) returns (run: seq<State>)
    requires c.dryR && !c.dryS && c.reqs != [] && c.cap >= 1
    ensures Run(c, run) && Failed(run[|run| - 1])
  {
    var s0 := Init(c);
    AsksNext(c.reqs, 0, true);
    assert c.reqs[0..] == c.reqs;
    var more := Asks(c.reqs[1..], true) + [MARK, MARK];
    Assoc(Ask(c.reqs[0], true), Asks(c.reqs[1..], true), [MARK, MARK]);
    assert s0.gTodo == [Num(c.reqs[0])] + more;
    var s1 := s0.(gTodo := more, up := [Num(c.reqs[0])]);
    assert [] + [Num(c.reqs[0])] == s1.up && s0.gTodo[1..] == more;
    StepOf(c, s0, Generator, s1);
    var s2 := SenderStep(c, s1).value;
    StepOf(c, s1, Sender, s2);
    assert s2.up == [] && s2.snd.pc == SSums(c.reqs[0]);
    var s3 := GeneratorStep(c, s2).value;
    StepOf(c, s2, Generator, s3);
    NotSums(c.reqs[1..], more);
    assert s3.up[0] == more[0];
    var s4 := SenderStep(c, s3).value;
    StepOf(c, s3, Sender, s4);
    run := [s0, s1, s2, s3, s4];
  }

  lemma NotSums(reqs: seq<nat>, more: seq<Item>)
    requires more == Asks(reqs, true) + [MARK, MARK]
    ensures more != [] && more[0].Num?
  {
  }

  /** One more step of a run. */
  lemma ExtendRun(c: Config, run: seq<State>, p: Process, st: State) returns (run': seq<State>)
    requires Run(c, run) && Step(c, run[|run| - 1], p) == Some(st)
    ensures Run(c, run') && run'[|run'| - 1] == st
  {
    run' := run + [st];
    StepOf(c, run[|run| - 1], p, st);
    forall k | 0 <= k < |run'| - 1 ensures NextAt(c, run', k) {
      assert k < |run| - 1 ==> NextAt(c, run, k);
    }
  }

  /** If only the sender makes a dry run, it answers the first index without waiting for the sums. */
  lemma AnswersEarly(c: Config) returns (run: seq<State>)
    requires !c.dryR && c.dryS && c.reqs != [] && c.cap >= 1
    ensures Run(c, run)
    ensures var st := run[|run| - 1]; st.up == [] && st.snd.pc == SRead && st.gTodo != [] && st.gTodo[0].Sums?
  {
    var s0 := Init(c);
    var i := c.reqs[0];
    AsksNext(c.reqs, 0, false);
    assert c.reqs[0..] == c.reqs;
    var more := Asks(c.reqs[1..], false) + [MARK, MARK];
    Assoc(Ask(i, false), Asks(c.reqs[1..], false), [MARK, MARK]);
    assert s0.gTodo == [Num(i), Sums(i)] + more;
    var s1 := s0.(gTodo := [Sums(i)] + more, up := [Num(i)]);
    assert [] + [Num(i)] == s1.up && s0.gTodo[1..] == s1.gTodo;
    run := ExtendRun(c, [s0], Generator, s1);
    var s2 := SenderStep(c, s1).value;
    run := ExtendRun(c, run, Sender, s2);
    assert s2.up == [] && s2.snd.pc == SIndex(i);
    var s3 := SenderStep(c, s2).value;
    run := ExtendRun(c, run, Sender, s3);
  }

  /** It takes the first file's sums for the next index. */
  lemma DrySenderFails(c: Config) returns (run: seq<State>)
    requires !c.dryR && c.dryS && c.reqs != [] && c.cap >= 1
    ensures Run(c, run) && Failed(run[|run| - 1])
  {
    run := AnswersEarly(c);
    var st := run[|run| - 1];
    var sums := GeneratorStep(c, st).value;
    assert sums.up == [st.gTodo[0]];
    run := ExtendRun(c, run, Generator, sums);
    run := ExtendRun(c, run, Sender, SenderStep(c, sums).value);
  }

  /** The session is safe on every run if and only if both sides have the same DryRun option or no
      file is requested. */
  lemma SafeWhenAgreeing(c: Config)
    requires c.cap >= 1
    ensures (forall run, k | Run(c, run) && 0 <= k < |run| :: !Failed(run[k])) <==> Agreeing(c)
  {
    if Agreeing(c) {
      forall run, k | Run(c, run) && 0 <= k < |run| ensures !Failed(run[k]) {
        Safety(c, run, k);
      }
    } else {
      var run: seq<State>;
      if c.dryR {
        run := DryReceiverFails(c);
      } else {
        run := DrySenderFails(c);
      }
      assert Run(c, run) && Failed(run[|run| - 1]);
    }
  }
}
