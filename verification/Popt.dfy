/** rsyncopts/popt.go: the scanner of command line options. */
module Popt {
  import opened Bytes

  const DASH: byte := 45
  const EQUALS: byte := 61

  const POPT_ERROR_NOARG := -10
  const POPT_ERROR_BADOPT := -11
  const POPT_ERROR_UNWANTEDARG := -12
  const POPT_ERROR_BADNUMBER := -17
  const POPT_ERROR_OVERFLOW := -18
  const POPT_ERROR_BADOPERATION := -19

  /** What `arg` points to: nothing, an int or a string of the options record, or a typed nil. */
  datatype Arg = NoArg | IntArg(id: nat) | NilInt | StringArg(id: nat) | NilString

  datatype ArgType = ARG_NONE | ARG_STRING | ARG_INT | ARG_VAL | ARG_OTHER

  /** poptOption. `orFlag` is POPT_ARGFLAG_OR. */
  datatype Opt = Opt(longName: bytes, shortName: bytes, argType: ArgType, orFlag: bool, arg: Arg, val: int)

  /** Context without its table: what is still to be scanned, and what has been stored. */
  datatype Scan = Scan(args: seq<bytes>, nextCharArg: bytes, nextArg: bytes, remainingArgs: seq<bytes>,
                       ints: map<nat, int>, strings: map<nat, bytes>)

  /** How poptGetNextOpt returns: with a code (-1 at the end), with an error, or not at all. */
  datatype Stop = Code(n: int32) | Errno(errno: int) | Panics

  datatype Turn = Again(st: Scan) | Done(how: Stop, st: Scan)

  /** strconv.ParseInt(s, 0, 64), and Go's `|`. */
  const ParseInt: bytes -> Option<int>
  const Or: (int, int) -> int

  // ---------- Looking up and storing ----------

  function FoundOption(table: seq<Opt>, longName: bytes, shortName: bytes): Option<Opt> {
    if table == [] then None
    else if longName != [] && table[0].longName == longName then Some(table[0])
    else if shortName != [] && table[0].shortName == shortName then Some(table[0])
    else FoundOption(table[1..], longName, shortName)
  }

  predicate TakesNoArg(o: Opt) { o.argType.ARG_NONE? || o.argType.ARG_VAL? }

  function IntAt(st: Scan, id: nat): int { if id in st.ints then st.ints[id] else 0 }

  /** poptSaveInt, for a target that is an int. */
  function SaveInt(o: Opt, val: int, st: Scan): Scan
    requires o.arg.IntArg?
  {
    st.(ints := st.ints[o.arg.id := if o.orFlag then Or(IntAt(st, o.arg.id), val) else val])
  }

  /** What follows a stored option: its code is returned, if it has one. */
  function Finish(o: Opt, st: Scan): Turn {
    if o.val != 0 && !o.argType.ARG_VAL? then Done(Code(ToInt32(o.val)), st) else Again(st)
  }

  /** An option without argument. */
  function Switch(o: Opt, st: Scan): Turn {
    match o.arg
    case NoArg => Finish(o, st)
    case IntArg(_) => Finish(o, SaveInt(o, if o.argType.ARG_VAL? then o.val else 1, st))
    case NilInt => Done(Errno(POPT_ERROR_BADOPERATION), st)
    case _ => Done(Panics, st)
  }

  /** An option with its argument: poptSaveArg. */
  function Store(o: Opt, st: Scan): Turn {
    match o.argType
    case ARG_INT =>
      var i := ParseInt(st.nextArg);
      if o.arg.NoArg? then Finish(o, st)
      else if i.None? then Done(Errno(POPT_ERROR_BADNUMBER), st)
      else if !(-0x8000_0000 <= i.value < 0x8000_0000) then Done(Errno(POPT_ERROR_OVERFLOW), st)
      else if o.arg.IntArg? then Finish(o, SaveInt(o, i.value, st))
      else if o.arg.NilInt? then Finish(o, st)
      else Done(Panics, st)
    case ARG_STRING =>
      if o.arg.StringArg? then Finish(o, st.(strings := st.strings[o.arg.id := st.nextArg]))
      else if o.arg.NilString? || o.arg.NoArg? then Finish(o, st)
      else Done(Panics, st)
    case _ => if o.arg.NoArg? then Finish(o, st) else Done(Errno(POPT_ERROR_BADOPERATION), st)
  }

  // ---------- One turn of the scanner ----------

  /** strings.Cut at the first "=". */
  function Before(w: bytes): bytes { if w == [] || w[0] == EQUALS then [] else [w[0]] + Before(w[1..]) }

  function After(w: bytes): bytes { if w == [] then [] else if w[0] == EQUALS then w[1..] else After(w[1..]) }

  function TrimDash(w: bytes): bytes { if w != [] && w[0] == DASH then w[1..] else w }

  /** The long name a word that starts with a dash is looked up by. */
  function LongPart(w: bytes): bytes { TrimDash(TrimDash(Before(w))) }

  function FindLong(table: seq<Opt>, w: bytes): Option<Opt> { FoundOption(table, LongPart(w), []) }

  function FindShort(table: seq<Opt>, letter: byte): Option<Opt> { FoundOption(table, [], [letter]) }

  predicate StartsWithEquals(s: bytes) { s != [] && s[0] == EQUALS }

  /** The argument of an option is after "=", is the rest of the bundle, or is the next word. */
  function Apply(o: Opt, longArg: bytes, st: Scan): Turn {
    if TakesNoArg(o) then
      if longArg != [] || StartsWithEquals(st.nextCharArg) then Done(Errno(POPT_ERROR_UNWANTEDARG), st)
      else Switch(o, st)
    else if longArg != [] then Store(o, st.(nextArg := longArg))
    else if st.nextCharArg != [] then
      var a := if StartsWithEquals(st.nextCharArg) then st.nextCharArg[1..] else st.nextCharArg;
      Store(o, st.(nextArg := a, nextCharArg := []))
    else if st.args == [] then Done(Errno(POPT_ERROR_NOARG), st)
    else Store(o, st.(nextArg := st.args[0], args := st.args[1..]))
  }

  function Letter(table: seq<Opt>, st: Scan): Turn
    requires st.nextCharArg != []
  {
    match FindShort(table, st.nextCharArg[0])
    case None => Done(Errno(POPT_ERROR_BADOPT), st)
    case Some(o) => Apply(o, [], st.(nextCharArg := st.nextCharArg[1..]))
  }

  function Word(table: seq<Opt>, w: bytes, st: Scan): Turn {
    if w == [] then Done(Errno(POPT_ERROR_BADOPT), st)
    else if w[0] != DASH || w == [DASH] then Again(st.(remainingArgs := st.remainingArgs + [w]))
    else
      match FindLong(table, w)
      case Some(o) => Apply(o, After(w), st)
      case None => Letter(table, st.(nextCharArg := w[1..]))
  }

  function TurnOf(table: seq<Opt>, st: Scan): Turn {
    if st.nextCharArg != [] then Letter(table, st)
    else if st.args == [] then Done(Code(-1), st)
    else Word(table, st.args[0], st.(args := st.args[1..]))
  }

  /** The termination measure: words left, then letters left. */
  predicate Smaller(a: Scan, b: Scan) {
    |a.args| < |b.args| || (|a.args| == |b.args| && |a.nextCharArg| < |b.nextCharArg|)
  }

  predicate NotLarger(a: Scan, b: Scan) { Smaller(a, b) || (a.args == b.args && a.nextCharArg == b.nextCharArg) }

  lemma ApplyShrinks(o: Opt, longArg: bytes, st: Scan)
    ensures NotLarger(Apply(o, longArg, st).st, st)
  {
  }

  lemma LetterShrinks(table: seq<Opt>, st: Scan)
    requires st.nextCharArg != []
    ensures var t := Letter(table, st); t.Again? || t.how.Code? ==> Smaller(t.st, st)
  {
    var letter := FindShort(table, st.nextCharArg[0]);
    if letter.Some? {
      ApplyShrinks(letter.value, [], st.(nextCharArg := st.nextCharArg[1..]));
    }
  }

  /** Every turn that does not end the scan uses up a word or a letter. */
  lemma TurnShrinks(table: seq<Opt>, st: Scan)
    ensures var t := TurnOf(table, st);
      (t.Again? || (t.how.Code? && t.how.n != -1)) ==> Smaller(t.st, st)
  {
    if st.nextCharArg != [] {
      LetterShrinks(table, st);
    } else if st.args != [] {
      var w, next := st.args[0], st.(args := st.args[1..]);
      if w != [] && w[0] == DASH && w != [DASH] {
        if NotLong(table, w) {
          LetterShrinks(table, next.(nextCharArg := w[1..]));
        } else {
          ApplyShrinks(FindLong(table, w).value, After(w), next);
        }
      }
    }
  }

  /** poptGetNextOpt. */
  function GetNextOpt(table: seq<Opt>, st: Scan): (r: (Stop, Scan))
    ensures r.0.Code? && r.0.n != -1 ==> Smaller(r.1, st)
    decreases |st.args|, |st.nextCharArg|
  {
    TurnShrinks(table, st);
    match TurnOf(table, st)
    case Again(next) => GetNextOpt(table, next)
    case Done(how, final) => (how, final)
  }

  // ---------- The driver ----------

  /** What a command line does: the returned codes, each with the argument its handler took, how the
      scan ended, and what is stored then. */
  datatype Outcome = Outcome(codes: seq<(int32, bytes)>, end: Stop, ints: map<nat, int>, strings: map<nat, bytes>,
                             remainingArgs: seq<bytes>)

  /** poptGetOptArg. */
  function TakeArg(takes: bool, st: Scan): Scan { if takes then st.(nextArg := []) else st }

  /** rsyncopts.go, lines 695-702: the loop around poptGetNextOpt, whose handlers take the argument of
      some codes. */
  function Drive(table: seq<Opt>, takes: int32 -> bool, st: Scan): Outcome
    decreases |st.args|, |st.nextCharArg|
  {
    var (how, next) := GetNextOpt(table, st);
    if how.Code? && how.n != -1 then
      var rest := Drive(table, takes, TakeArg(takes(how.n), next));
      rest.(codes := [(how.n, if takes(how.n) then next.nextArg else [])] + rest.codes)
    else Outcome([], how, next.ints, next.strings, next.remainingArgs)
  }

  /** The command line as it is before the first call. */
  function Start(args: seq<bytes>): Scan { Scan(args, [], [], [], map[], map[]) }

  // ---------- Bundling ----------

  /** A bundle of letters, each a word of its own. */
  function Singles(letters: bytes): seq<bytes> {
    if letters == [] then [] else [[DASH, letters[0]]] + Singles(letters[1..])
  }

  /** What is left of a bundle, as a word of its own. */
  function TailWord(tail: bytes): seq<bytes> { if tail == [] then [] else [[DASH] + tail] }

  predicate NotLong(table: seq<Opt>, w: bytes) { FindLong(table, w).None? }

  /** A letter of an option without argument that is not a long name by itself. */
  predicate Bundled(table: seq<Opt>, letter: byte) {
    && letter != EQUALS
    && NotLong(table, [DASH, letter])
    && FindShort(table, letter).Some? && TakesNoArg(FindShort(table, letter).value)
  }

  predicate AllBundled(table: seq<Opt>, letters: bytes) { forall k | 0 <= k < |letters| :: Bundled(table, letters[k]) }

  /** The tail starts with any letter but "=", and is not a long name. */
  predicate TailOk(table: seq<Opt>, tail: bytes) {
    tail != [] ==> tail[0] != EQUALS && NotLong(table, [DASH] + tail)
  }

  /** In the middle of a bundle, and the same with the rest of the bundle spelled out. */
  function Mid(st: Scan, letters: bytes, tail: bytes): Scan { st.(nextCharArg := letters + tail) }

  function Spelled(st: Scan, letters: bytes, tail: bytes): Scan {
    st.(nextCharArg := [], args := Singles(letters) + TailWord(tail) + st.args)
  }

  /** Scans that take the same turn have the same outcome. */
  lemma SameTurn(table: seq<Opt>, takes: int32 -> bool, a: Scan, b: Scan)
    requires TurnOf(table, a) == TurnOf(table, b)
    ensures Drive(table, takes, a) == Drive(table, takes, b)
  {
    assert GetNextOpt(table, a) == GetNextOpt(table, b);
  }

  /** A turn of the driver. */
  lemma DriveTurn(table: seq<Opt>, takes: int32 -> bool, st: Scan)
    ensures var t := TurnOf(table, st);
      match t
      case Again(next) => Drive(table, takes, st) == Drive(table, takes, next)
      case Done(how, next) =>
        if how.Code? && how.n != -1 then
          var rest := Drive(table, takes, TakeArg(takes(how.n), next));
          Drive(table, takes, st) == rest.(codes := [(how.n, if takes(how.n) then next.nextArg else [])] + rest.codes)
        else Drive(table, takes, st) == Outcome([], how, next.ints, next.strings, next.remainingArgs)
  {
    TurnShrinks(table, st);
  }

  /** A word that is not a long name is scanned letter by letter. */
  lemma ShortWordTurn(table: seq<Opt>, chars: bytes, st: Scan)
    requires chars != [] && st.nextCharArg == [] && NotLong(table, [DASH] + chars)
    ensures TurnOf(table, st.(args := [[DASH] + chars] + st.args)) == TurnOf(table, st.(nextCharArg := chars))
  {
    var w := [DASH] + chars;
    assert ([w] + st.args)[1..] == st.args && w[1..] == chars;
  }

  /** The turn of one bundled letter does not look at what follows, except that it is not "=". */
  lemma LetterTurn(table: seq<Opt>, letter: byte, st: Scan, chars: bytes)
    requires Bundled(table, letter) && !StartsWithEquals(chars)
    ensures TurnOf(table, st.(nextCharArg := [letter] + chars))
         == Switch(FindShort(table, letter).value, st.(nextCharArg := chars))
  {
    assert ([letter] + chars)[1..] == chars;
  }

  /** A switch stores, and leaves the words and letters alone. */
  lemma SwitchFrame(o: Opt, st: Scan, chars: bytes, args: seq<bytes>)
    ensures var t, next := Switch(o, st.(nextCharArg := chars, args := args)), Switch(o, st).st;
      && t.st == next.(nextCharArg := chars, args := args)
      && next.args == st.args
      && t == (if Switch(o, st).Again? then Again(t.st) else Done(Switch(o, st).how, t.st))
  {
  }

  /** Two scans that turn alike and go on alike have the same outcome. */
  lemma SameOutcome(table: seq<Opt>, takes: int32 -> bool, a: Scan, b: Scan)
    requires var ta, tb := TurnOf(table, a), TurnOf(table, b);
      && ta.Again? == tb.Again?
      && (ta.Again? ==> Drive(table, takes, ta.st) == Drive(table, takes, tb.st))
      && (ta.Done? ==>
            && ta.how == tb.how && ta.st.nextArg == tb.st.nextArg
            && ta.st.ints == tb.st.ints && ta.st.strings == tb.st.strings && ta.st.remainingArgs == tb.st.remainingArgs
            && forall taken :: Drive(table, takes, TakeArg(taken, ta.st)) == Drive(table, takes, TakeArg(taken, tb.st)))
    ensures Drive(table, takes, a) == Drive(table, takes, b)
  {
    DriveTurn(table, takes, a);
    DriveTurn(table, takes, b);
  }

  /** The turn of a bundle, and of its spelling, where the first letter is handled. */
  lemma BundleTurn(table: seq<Opt>, st: Scan, letters: bytes, tail: bytes)
    requires AllBundled(table, letters) && TailOk(table, tail) && letters != []
    ensures TurnOf(table, Mid(st, letters, tail))
         == Switch(FindShort(table, letters[0]).value, Mid(st, letters[1..], tail))
  {
    var chars := letters[1..] + tail;
    assert letters + tail == [letters[0]] + chars;
    assert chars != [] ==> chars[0] == if |letters| > 1 then letters[1] else tail[0];
    LetterTurn(table, letters[0], st, chars);
  }

  lemma SpelledTurn(table: seq<Opt>, st: Scan, letters: bytes, tail: bytes)
    requires AllBundled(table, letters) && letters != []
    ensures TurnOf(table, Spelled(st, letters, tail))
         == Switch(FindShort(table, letters[0]).value, Spelled(st, letters[1..], tail))
  {
    var letter, next := [letters[0]], Spelled(st, letters[1..], tail);
    var w := [DASH] + letter;
    assert w == [DASH, letters[0]];
    Assoc([w], Singles(letters[1..]), TailWord(tail));
    Assoc([w], Singles(letters[1..]) + TailWord(tail), st.args);
    ShortWordTurn(table, letter, next);
    NothingMore(letter);
    LetterTurn(table, letters[0], next, []);
  }

  lemma {:induction false} MidBundle(table: seq<Opt>, takes: int32 -> bool, st: Scan, letters: bytes, tail: bytes)
    requires AllBundled(table, letters) && TailOk(table, tail)
    ensures Drive(table, takes, Mid(st, letters, tail)) == Drive(table, takes, Spelled(st, letters, tail))
    decreases |letters|
  {
    if letters == [] {
      NothingBefore(tail);
      if tail == [] {
        NothingBefore(TailWord(tail) + st.args);
        assert Spelled(st, letters, tail) == Mid(st, letters, tail);
      } else {
        assert Singles(letters) == [];
        NothingBefore(TailWord(tail));
        ShortWordTurn(table, tail, st.(nextCharArg := []));
        SameTurn(table, takes, Mid(st, letters, tail), Spelled(st, letters, tail));
      }
    } else {
      var more, o := letters[1..], FindShort(table, letters[0]).value;
      BundleTurn(table, st, letters, tail);
      SpelledTurn(table, st, letters, tail);
      SwitchFrame(o, st, more + tail, st.args);
      SwitchFrame(o, st, [], Singles(more) + TailWord(tail) + st.args);
      var next := Switch(o, st).st;
      MidBundle(table, takes, next, more, tail);
      MidBundle(table, takes, next.(nextArg := []), more, tail);
      SameOutcome(table, takes, Mid(st, letters, tail), Spelled(st, letters, tail));
    }
  }

  /** A word `-xyz...` of letters without arguments, ended by anything, has the same outcome as `-x -y -z`
      and the rest as a word of its own, wherever it stands: the same codes with the same arguments, the
      same end, the same stored values and the same remaining arguments. */
  lemma Bundling(table: seq<Opt>, takes: int32 -> bool, st: Scan, letters: bytes, tail: bytes, args: seq<bytes>)
    requires st.nextCharArg == [] && letters != []
    requires AllBundled(table, letters) && TailOk(table, tail) && NotLong(table, [DASH] + letters + tail)
    ensures Drive(table, takes, st.(args := [[DASH] + letters + tail] + args))
         == Drive(table, takes, st.(args := Singles(letters) + TailWord(tail) + args))
  {
    var rest := st.(args := args);
    Assoc([DASH], letters, tail);
    ShortWordTurn(table, letters + tail, rest);
    SameTurn(table, takes, st.(args := [[DASH] + letters + tail] + args), Mid(rest, letters, tail));
    MidBundle(table, takes, rest, letters, tail);
  }

  // ---------- Arguments ----------

  lemma {:induction false} CutAt(name: bytes, value: bytes)
    requires forall k | 0 <= k < |name| :: name[k] != 61
    ensures Before(name + [61] + value) == name && After(name + [61] + value) == value
    ensures Before(name) == name && After(name) == []
  {
    if name == [] {
      NothingBefore([61]);
      assert ([61] + value)[1..] == value;
    } else {
      CutAt(name[1..], value);
      assert (name + [61] + value)[1..] == name[1..] + [61] + value;
      assert name == [name[0]] + name[1..];
    }
  }

  /** The turn of a word `--name` or `--name=value` whose name is in the table. */
  lemma LongTurn(table: seq<Opt>, st: Scan, name: bytes, value: bytes, args: seq<bytes>)
    requires st.nextCharArg == [] && forall k | 0 <= k < |name| :: name[k] != 61
    requires FoundOption(table, name, []).Some?
    ensures var o, next := FoundOption(table, name, []).value, st.(args := args);
      && TurnOf(table, st.(args := [[45, 45] + name + [61] + value] + args)) == Apply(o, value, next)
      && TurnOf(table, st.(args := [[45, 45] + name] + args)) == Apply(o, [], next)
  {
    var w, w' := [45, 45] + name + [61] + value, [45, 45] + name;
    CutAt(w', value);
    assert w'[1..] == [45] + name && ([45] + name)[1..] == name;
    assert ([w] + args)[1..] == args && ([w'] + args)[1..] == args;
  }

  /** `--name=value` means what `--name value` means. */
  lemma LongArgument(table: seq<Opt>, takes: int32 -> bool, st: Scan, name: bytes, value: bytes, args: seq<bytes>)
    requires st.nextCharArg == [] && value != [] && forall k | 0 <= k < |name| :: name[k] != 61
    requires FoundOption(table, name, []).Some? && !TakesNoArg(FoundOption(table, name, []).value)
    ensures Drive(table, takes, st.(args := [[45, 45] + name + [61] + value] + args))
         == Drive(table, takes, st.(args := [[45, 45] + name, value] + args))
  {
    LongTurn(table, st, name, value, args);
    LongTurn(table, st, name, value, [value] + args);
    assert [[45, 45] + name, value] + args == [[45, 45] + name] + ([value] + args);
    assert ([value] + args)[1..] == args;
    SameTurn(table, takes, st.(args := [[45, 45] + name + [61] + value] + args),
             st.(args := [[45, 45] + name] + ([value] + args)));
  }

  /** The turn of a word that starts with a letter of the table and is not a long name. */
  lemma ShortTurn(table: seq<Opt>, st: Scan, letter: byte, chars: bytes, args: seq<bytes>)
    requires st.nextCharArg == [] && NotLong(table, [45, letter] + chars)
    requires FoundOption(table, [], [letter]).Some?
    ensures TurnOf(table, st.(args := [[45, letter] + chars] + args))
         == Apply(FoundOption(table, [], [letter]).value, [], st.(nextCharArg := chars, args := args))
  {
    assert [45, letter] + chars == [DASH] + ([letter] + chars);
    ShortWordTurn(table, [letter] + chars, st.(args := args));
    assert ([letter] + chars)[1..] == chars;
  }

  /** `-xvalue` and `-x=value` mean what `-x value` means. */
  lemma ShortArgument(table: seq<Opt>, takes: int32 -> bool, st: Scan, letter: byte, value: bytes, args: seq<bytes>)
    requires st.nextCharArg == [] && NotLong(table, [45, letter])
    requires FoundOption(table, [], [letter]).Some? && !TakesNoArg(FoundOption(table, [], [letter]).value)
    ensures value != [] && value[0] != 61 && NotLong(table, [45, letter] + value) ==>
      Drive(table, takes, st.(args := [[45, letter] + value] + args))
      == Drive(table, takes, st.(args := [[45, letter], value] + args))
    ensures NotLong(table, [45, letter] + ([61] + value)) ==>
      Drive(table, takes, st.(args := [[45, letter] + ([61] + value)] + args))
      == Drive(table, takes, st.(args := [[45, letter], value] + args))
  {
    NothingMore([45, letter]);
    ShortTurn(table, st, letter, [], [value] + args);
    assert [[45, letter], value] + args == [[45, letter]] + ([value] + args);
    assert ([value] + args)[1..] == args && ([61] + value)[1..] == value;
    if value != [] && value[0] != 61 && NotLong(table, [45, letter] + value) {
      ShortTurn(table, st, letter, value, args);
      SameTurn(table, takes, st.(args := [[45, letter] + value] + args),
               st.(args := [[45, letter]] + ([value] + args)));
    }
    if NotLong(table, [45, letter] + ([61] + value)) {
      ShortTurn(table, st, letter, [61] + value, args);
      SameTurn(table, takes, st.(args := [[45, letter] + ([61] + value)] + args),
               st.(args := [[45, letter]] + ([value] + args)));
    }
  }

  /** What an argument stores, or the error it gives. */
  lemma ArgumentStored(table: seq<Opt>, st: Scan, name: bytes, value: bytes, args: seq<bytes>)
    requires st.nextCharArg == [] && value != [] && forall k | 0 <= k < |name| :: name[k] != 61
    requires FoundOption(table, name, []).Some?
    ensures var o, t := FoundOption(table, name, []).value,
                        TurnOf(table, st.(args := [[45, 45] + name + [61] + value] + args));
      var next := st.(args := args, nextArg := value);
      && (o.argType.ARG_STRING? && o.arg.StringArg? ==> t.st == next.(strings := st.strings[o.arg.id := value]))
      && (o.argType.ARG_INT? && o.arg.IntArg? ==>
            match ParseInt(value)
            case None => t == Done(Errno(-17), next)
            case Some(n) =>
              if n < -0x8000_0000 || n > 0x7FFF_FFFF then t == Done(Errno(-18), next)
              else !o.orFlag ==> t.st == next.(ints := st.ints[o.arg.id := n]))
      && (TakesNoArg(o) ==> t == Done(Errno(-12), st.(args := args)))
  {
    LongTurn(table, st, name, value, args);
  }

  /** What a switch stores. */
  lemma SwitchStored(table: seq<Opt>, st: Scan, name: bytes, args: seq<bytes>)
    requires st.nextCharArg == [] && forall k | 0 <= k < |name| :: name[k] != 61
    requires FoundOption(table, name, []).Some?
    requires var o := FoundOption(table, name, []).value; o.arg.IntArg? && !o.orFlag && TakesNoArg(o)
    ensures var o, t := FoundOption(table, name, []).value, TurnOf(table, st.(args := [[45, 45] + name] + args));
      && t.st == st.(args := args, ints := st.ints[o.arg.id := if o.argType.ARG_VAL? then o.val else 1])
      && (t.Done? <==> o.argType.ARG_NONE? && o.val != 0)
  {
    LongTurn(table, st, name, [], args);
  }

  /** A number is returned for an option that has one; an option that lacks its argument or its target is an
      error. */
  lemma OptionReturned(table: seq<Opt>, st: Scan, name: bytes, args: seq<bytes>)
    requires st.nextCharArg == [] && forall k | 0 <= k < |name| :: name[k] != 61
    requires FoundOption(table, name, []).Some?
    ensures var o, t := FoundOption(table, name, []).value, TurnOf(table, st.(args := [[45, 45] + name] + args));
      && (o.argType.ARG_NONE? && o.arg.NoArg? && 0 < o.val < 0x8000_0000 ==> t == Done(Code(o.val), st.(args := args)))
      && (!TakesNoArg(o) && args == [] ==> t == Done(Errno(-10), st.(args := [])))
      && (TakesNoArg(o) && o.arg.NilInt? ==> t == Done(Errno(-19), st.(args := args)))
  {
    LongTurn(table, st, name, [], args);
    var o := FoundOption(table, name, []).value;
    if 0 < o.val < 0x8000_0000 {
      SmallInt32(o.val);
    }
  }

  /** What is no option: a word that does not start with a dash, or is one, is kept; an empty word, or one whose
      first letter is not in the table either, is an error. */
  lemma NoOption(table: seq<Opt>, st: Scan, w: bytes, args: seq<bytes>)
    requires st.nextCharArg == []
    ensures var t, next := TurnOf(table, st.(args := [w] + args)), st.(args := args);
      && (w == [45] || (w != [] && w[0] != 45) ==> t == Again(next.(remainingArgs := st.remainingArgs + [w])))
      && (w == [] ==> t == Done(Errno(-11), next))
      && (|w| > 1 && w[0] == 45 && NotLong(table, w) && FoundOption(table, [], [w[1]]).None? ==>
            t == Done(Errno(-11), next.(nextCharArg := w[1..])))
  {
    assert ([w] + args)[1..] == args;
  }

  /** strings.Cut at "=". */
  method Cut(s: bytes) returns (before: bytes, after: bytes, found: bool)
    ensures if found then s == before + [61] + after else before == s && after == []
    ensures forall k | 0 <= k < |before| :: before[k] != 61
  {
    var k := 0;
    while k < |s| && s[k] != EQUALS
      invariant 0 <= k <= |s| && forall j | 0 <= j < k :: s[j] != 61
    {
      k := k + 1;
    }
    found := k < |s|;
    if found {
      before, after := s[..k], s[k + 1..];
    } else {
      before, after := s, [];
    }
  }

  // ---------- The scanner's object ----------

  /** rsyncopts.Context. `ints` and `strings` are the fields of the options record its table points to. */
  class Context {
    const table: seq<Opt>
    var args: seq<bytes>
    var nextCharArg: bytes
    var nextArg: bytes
    var remainingArgs: seq<bytes>
    var ints: map<nat, int>
    var strings: map<nat, bytes>

    constructor (table: seq<Opt>, args: seq<bytes>)
      ensures this.table == table && View() == Start(args)
    {
      this.table, this.args, nextCharArg, nextArg, remainingArgs := table, args, [], [], [];
      ints, strings := map[], map[];
    }

    function View(): Scan
      reads this
    {
      Scan(args, nextCharArg, nextArg, remainingArgs, ints, strings)
    }

    method FindOption(longName: bytes, shortName: bytes) returns (r: Option<Opt>)
      ensures r == FoundOption(table, longName, shortName)
    {
      for idx := 0 to |table|
        invariant FoundOption(table, longName, shortName) == FoundOption(table[idx..], longName, shortName)
      {
        var opt := table[idx];
        if longName != [] && opt.longName == longName {
          return Some(opt);
        }
        if shortName != [] && opt.shortName == shortName {
          return Some(opt);
        }
      }
      r := None;
    }

    /** Whether the target is there; a target of the wrong type panics. */
    method PoptSaveInt(opt: Opt, val: int) returns (saved: bool)
      requires opt.arg.IntArg? || opt.arg.NilInt?
      modifies this`ints
      ensures saved == opt.arg.IntArg?
      ensures View() == if saved then SaveInt(opt, val, old(View())) else old(View())
    {
      if opt.arg.NilInt? {
        return false;
      }
      var id := opt.arg.id;
      var was := if id in ints then ints[id] else 0;
      ints := ints[id := if opt.orFlag then Or(was, val) else val];
      saved := true;
    }

    /** poptSaveArg: None when it returned 0. */
    method PoptSaveArg(opt: Opt) returns (r: Option<Stop>)
      requires !opt.arg.NoArg? && !TakesNoArg(opt)
      modifies this`ints, this`strings
      ensures var t := Store(opt, old(View()));
        if r.Some? then t == Done(r.value, View()) else t == Finish(opt, View())
    {
      r := None;
      match opt.argType {
        case ARG_INT =>
          var i := ParseInt(nextArg);
          if i.None? {
            return Some(Errno(POPT_ERROR_BADNUMBER));
          }
          if i.value < -0x8000_0000 || i.value > 0x7FFF_FFFF {
            return Some(Errno(POPT_ERROR_OVERFLOW));
          }
          if !(opt.arg.IntArg? || opt.arg.NilInt?) {
            return Some(Panics);
          }
          var _ := PoptSaveInt(opt, i.value);
        case ARG_STRING =>
          if !(opt.arg.StringArg? || opt.arg.NilString?) {
            return Some(Panics);
          }
          if opt.arg.StringArg? {
            strings := strings[opt.arg.id := nextArg];
          }
        case _ => r := Some(Errno(POPT_ERROR_BADOPERATION));
      }
    }

    /** The body of the loop from line 152 on: the option a turn is about and its "=" argument. */
    method NextOption() returns (opt: Option<Opt>, longArg: bytes, stop: Option<Stop>)
      requires nextCharArg != [] || args != []
      modifies this`args, this`nextCharArg, this`remainingArgs
      ensures var t := TurnOf(table, old(View()));
        match stop
        case Some(how) => t == Done(how, View())
        case None => t == if opt.None? then Again(View()) else Apply(opt.value, longArg, View())
    {
      opt, longArg, stop := None, [], None;
      if nextCharArg == [] {
        var origOptString := args[0];
        args := args[1..];
        if origOptString == [] {
          return None, [], Some(Errno(POPT_ERROR_BADOPT));
        }
        if origOptString[0] != DASH || origOptString == [DASH] {
          remainingArgs := remainingArgs + [origOptString];
          return None, [], None;
        }
        var before, after, found := Cut(origOptString);
        CutAt(before, after);
        if found {
          longArg := after;
        }
        before := before[1..];
        if before != [] && before[0] == DASH {
          before := before[1..];
        }
        opt := FindOption(before, []);
        if opt.None? {
          nextCharArg := origOptString[1..];
          longArg := [];
        }
      }
      if nextCharArg != [] {
        opt := FindOption([], [nextCharArg[0]]);
        if opt.None? {
          return None, [], Some(Errno(POPT_ERROR_BADOPT));
        }
        nextCharArg := nextCharArg[1..];
      }
    }

    /** Lines 201-246: stores the option. None when the loop goes on to its code. */
    method StoreOption(opt: Opt, longArg: bytes) returns (stop: Option<Stop>)
      modifies this
      ensures var t := Apply(opt, longArg, old(View()));
        if stop.Some? then t == Done(stop.value, View()) else t == Finish(opt, View())
    {
      stop := None;
      if opt.argType.ARG_NONE? || opt.argType.ARG_VAL? {
        if longArg != [] || (nextCharArg != [] && nextCharArg[0] == EQUALS) {
          return Some(Errno(POPT_ERROR_UNWANTEDARG));
        }
        if opt.arg.StringArg? || opt.arg.NilString? {
          return Some(Panics);
        }
        if !opt.arg.NoArg? {
          var saved := PoptSaveInt(opt, if opt.argType.ARG_VAL? then opt.val else 1);
          if !saved {
            return Some(Errno(POPT_ERROR_BADOPERATION));
          }
        }
      } else {
        var a := longArg;
        if longArg == [] {
          if nextCharArg != [] {
            a := nextCharArg;
            if a[0] == EQUALS {
              a := a[1..];
            }
            nextCharArg := [];
          } else {
            if args == [] {
              return Some(Errno(POPT_ERROR_NOARG));
            }
            a := args[0];
            args := args[1..];
          }
        }
        nextArg := a;
        if !opt.arg.NoArg? {
          stop := PoptSaveArg(opt);
        }
      }
    }

    /** poptGetNextOpt: its loop ends because every turn uses up a word or a letter. */
    method PoptGetNextOpt() returns (how: Stop)
      modifies this
      ensures (how, View()) == GetNextOpt(table, old(View()))
    {
      while true
        invariant GetNextOpt(table, View()) == GetNextOpt(table, old(View()))
        decreases |args|, |nextCharArg|
      {
        TurnShrinks(table, View());
        if nextCharArg == [] && args == [] {
          return Code(-1);
        }
        var opt, longArg, stop := NextOption();
        if stop.Some? {
          return stop.value;
        }
        if opt.Some? {
          stop := StoreOption(opt.value, longArg);
          if stop.Some? {
            return stop.value;
          }
          if opt.value.val != 0 && !opt.value.argType.ARG_VAL? {
            return Code(ToInt32(opt.value.val));
          }
        }
      }
    }

    method PoptGetOptArg() returns (ret: bytes)
      modifies this`nextArg
      ensures ret == old(nextArg) && View() == TakeArg(true, old(View()))
    {
      ret := nextArg;
      nextArg := [];
    }
  }

  function Earlier(codes: seq<(int32, bytes)>, o: Outcome): Outcome { o.(codes := codes + o.codes) }

  /** The driving loop, with handlers that do no more than take the argument of some codes. */
  method ParseArguments(pc: Context, takes: int32 -> bool) returns (r: Outcome)
    modifies pc
    ensures r == Drive(pc.table, takes, old(pc.View()))
  {
    var codes: seq<(int32, bytes)> := [];
    NothingBefore(Drive(pc.table, takes, pc.View()).codes);
    while true
      invariant Drive(pc.table, takes, old(pc.View())) == Earlier(codes, Drive(pc.table, takes, pc.View()))
      decreases |pc.args|, |pc.nextCharArg|
    {
      var how := pc.PoptGetNextOpt();
      if !how.Code? || how.n == -1 {
        NothingMore(codes);
        return Outcome(codes, how, pc.ints, pc.strings, pc.remainingArgs);
      }
      var arg: bytes := [];
      if takes(how.n) {
        arg := pc.PoptGetOptArg();
      }
      Assoc(codes, [(how.n, arg)], Drive(pc.table, takes, pc.View()).codes);
      codes := codes + [(how.n, arg)];
    }
  }
}
