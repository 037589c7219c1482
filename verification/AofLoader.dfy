/**
 loadAppendOnlyFile: what it executes for any file, that it inverts the writer, and what it makes of a file
 cut short anywhere.
 */
module AofLoader {
  import opened Bytes
  import opened AofCommand

  // ----- The C library calls the loader uses

  const LINE_LIMIT := 127

  /** How many of the bytes of s fgets takes with a buffer of 128. */
  function LineFrom(s: seq<Byte>, i: nat): (n: nat)
    requires i <= |s|
    ensures i <= n <= |s|
    decreases |s| - i
  {
    if i == |s| || i >= LINE_LIMIT then i else if s[i] == LF then i + 1 else LineFrom(s, i + 1)
  }

  function LineLength(s: seq<Byte>): (n: nat)
    requires s != []
    ensures 1 <= n <= |s|
  {
    LineFrom(s, 0)
  }

  function SkipSpaces(s: seq<Byte>): seq<Byte> { if s != [] && IsSpace(s[0]) then SkipSpaces(s[1..]) else s }

  function DigitRun(s: seq<Byte>): (d: seq<Byte>)
    ensures AllDigits(d)
  {
    if s != [] && IsDigit(s[0]) then [s[0]] + DigitRun(s[1..]) else []
  }

  function Saturate(v: int): int {
    if v >= LONG_LIMIT then LONG_LIMIT - 1 else if v < -LONG_LIMIT then -LONG_LIMIT else v
  }

  function Strtol(s: seq<Byte>): int {
    var t := SkipSpaces(s);
    if t != [] && t[0] == MINUS then Saturate(0 - Val(DigitRun(t[1..])))
    else if t != [] && t[0] == PLUS then Saturate(Val(DigitRun(t[1..])))
    else Saturate(Val(DigitRun(t)))
  }

  function Atoi(s: seq<Byte>): int { AsInt(Strtol(s)) }

  // ----- What the loader reads next

  datatype ArgRead = GotArg(arg: Arg, rest: seq<Byte>) | ArgCut | ArgBad | ArgOom

  /** One `$<len>` line, len bytes and two more (lines 669-688). */
  function ReadArg(s: seq<Byte>): ArgRead {
    if s == [] then ArgCut else
      var n := LineLength(s);
      var len := Strtol(s[1..n]);
      var rest := s[n..];
      if s[0] != DOLLAR then ArgBad
      else if len < 0 then ArgOom
      else if |rest| < len || |rest| < len + 2 then ArgCut
      else GotArg(rest[..len], rest[len + 2..])
  }

  datatype ArgsRead = GotArgs(argv: Command, rest: seq<Byte>) | ArgsStop(why: ArgRead)

  function ReadArgs(s: seq<Byte>, argc: nat): ArgsRead
    decreases argc
  {
    if argc == 0 then GotArgs([], s) else
      match ReadArg(s)
      case GotArg(a, rest) =>
        (match ReadArgs(rest, argc - 1)
         case GotArgs(argv, r) => GotArgs([a] + argv, r)
         case ArgsStop(w) => ArgsStop(w))
      case w => ArgsStop(w)
  }

  datatype CommandRead = GotCommand(argv: Command, rest: seq<Byte>) | Eof | Cut | Bad | ReadError | OutOfMemory

  /** Lines 653-689. */
  function ReadCommand(s: seq<Byte>): CommandRead {
    if s == [] then Eof else
      var n := LineLength(s);
      if s[0] != STAR then Bad
      else if n == 1 || s[1] == 0 then (if n == |s| && n < LINE_LIMIT && s[n - 1] != LF then Cut else ReadError)
      else
        var argc := Atoi(s[1..n]);
        if argc < 1 then Bad else
          match ReadArgs(s[n..], argc)
          case GotArgs(argv, rest) => GotCommand(argv, rest)
          case ArgsStop(ArgCut) => Cut
          case ArgsStop(ArgOom) => OutOfMemory
          case ArgsStop(_) => Bad
  }

  /** Empty: nothing to load.  Loaded: the commands run and the size the file is left with.  Otherwise the server exits. */
  datatype LoadResult =
    | EmptyFile
    | Loaded(cmds: seq<Command>, size: nat)
    | Exits(ran: seq<Command>, why: CommandRead)
    | Rejects(ran: seq<Command>, name: Arg)

  /** The command table: whether lookupCommand finds a name. */
  type Table = Arg -> bool

  const MULTI: Arg := [109, 117, 108, 116, 105]
  const EXEC: Arg := [101, 120, 101, 99]
  const DISCARD: Arg := [100, 105, 115, 99, 97, 114, 100]

  /** Command names are looked up whatever the case of their letters. */
  function Lower(a: Arg): Arg { seq(|a|, i requires 0 <= i < |a| => if 65 <= a[i] <= 90 then a[i] + 32 else a[i]) }

  /** Whether the fake client is inside a MULTI after one more command; the loader runs the commands in it at once. */
  predicate MultiAfter(multi: bool, argv: Command) {
    if argv == [] then multi
    else if Lower(argv[0]) == MULTI then true
    else multi && Lower(argv[0]) != EXEC && Lower(argv[0]) != DISCARD
  }

  predicate InMulti(cmds: seq<Command>) {
    cmds != [] && MultiAfter(InMulti(cmds[..|cmds| - 1]), cmds[|cmds| - 1])
  }

  lemma ArgConsumes(s: seq<Byte>)
    ensures ReadArg(s).GotArg? ==> |ReadArg(s).rest| < |s|
  {
  }

  lemma {:induction false} ArgsConsume(s: seq<Byte>, argc: nat)
    ensures ReadArgs(s, argc).GotArgs? ==> |ReadArgs(s, argc).rest| <= |s| && |ReadArgs(s, argc).argv| == argc
    decreases argc
  {
    if argc > 0 && ReadArg(s).GotArg? {
      ArgConsumes(s);
      ArgsConsume(ReadArg(s).rest, argc - 1);
    }
  }

  lemma CommandConsumes(s: seq<Byte>)
    ensures ReadCommand(s).GotCommand? ==> |ReadCommand(s).rest| < |s| && ReadCommand(s).argv != []
  {
    if s != [] && s[0] == STAR {
      var n := LineLength(s);
      if n > 1 && Atoi(s[1..n]) >= 1 { ArgsConsume(s[n..], Atoi(s[1..n])); }
    }
  }

  /** The whole loop, from what is left of the file after `done` commands. */
  function LoadFrom(s: seq<Byte>, known: Table, ran: seq<Command>, offset: nat, loadTruncated: bool): LoadResult
    decreases |s|
  {
    CommandConsumes(s);
    match ReadCommand(s)
    case Eof => if loadTruncated || !InMulti(ran) then Loaded(ran, offset) else Exits(ran, Eof)
    case GotCommand(argv, rest) =>
      if !known(argv[0]) then Rejects(ran, argv[0])
      else LoadFrom(rest, known, ran + [argv], offset + |s| - |rest|, loadTruncated)
    case Cut => if loadTruncated then Loaded(ran, offset) else Exits(ran, Cut)
    case w => Exits(ran, w)
  }

  function Load(file: seq<Byte>, known: Table, loadTruncated: bool): LoadResult {
    if file == [] then EmptyFile else LoadFrom(file, known, [], 0, loadTruncated)
  }

  /** Lines 668-689: the loop over the arguments of one command. */
  method LoadArguments(s: seq<Byte>, argc: nat) returns (r: ArgsRead)
    ensures r == ReadArgs(s, argc)
  {
    hide ReadArg;
    var argv, rest := [], s;
    for j := 0 to argc
      invariant ReadArgs(s, argc) == Prepend(argv, ReadArgs(rest, argc - j))
    {
      match ReadArg(rest)
      case GotArg(a, more) =>
        PrependStep(argv, a, ReadArgs(more, argc - j - 1));
        argv, rest := argv + [a], more;
      case w => return ArgsStop(w);
    }
    assert argv + [] == argv;
    return GotArgs(argv, rest);
  }

  /** loadAppendOnlyFile, reading at a moving position. */
  method LoadAppendOnlyFile(file: seq<Byte>, known: Table, loadTruncated: bool) returns (r: LoadResult)
    ensures r == Load(file, known, loadTruncated)
  {
    hide ReadArgs, LineLength, Atoi, MultiAfter;
    if |file| == 0 { return EmptyFile; }
    var pos, ran, multi := 0, [], false;
    while true
      invariant 0 <= pos <= |file| && multi == InMulti(ran)
      invariant Load(file, known, loadTruncated) == LoadFrom(file[pos..], known, ran, pos, loadTruncated)
      decreases |file| - pos
    {
      var s := file[pos..];
      if pos == |file| { return if multi && !loadTruncated then Exits(ran, Eof) else Loaded(ran, pos); }
      CommandConsumes(s);
      var n := LineLength(s);
      if s[0] != STAR { return Exits(ran, Bad); }
      if n == 1 || s[1] == 0 {
        var cut := n == |s| && n < LINE_LIMIT && s[n - 1] != LF;
        if cut && loadTruncated { return Loaded(ran, pos); }
        return Exits(ran, if cut then Cut else ReadError);
      }
      var argc := Atoi(s[1..n]);
      if argc < 1 { return Exits(ran, Bad); }
      var args := LoadArguments(s[n..], argc);
      match args
      case GotArgs(argv, rest) =>
        RestIsSuffix(s, argc, n);
        if !known(argv[0]) { return Rejects(ran, argv[0]); }
        assert (ran + [argv])[..|ran|] == ran;
        ran, multi := ran + [argv], MultiAfter(multi, argv);
        pos := pos + |s| - |rest|;
        assert file[pos..] == rest;
      case ArgsStop(w) =>
        if w.ArgCut? && loadTruncated { return Loaded(ran, pos); }
        return Exits(ran, if w.ArgCut? then Cut else if w.ArgOom? then OutOfMemory else Bad);
    }
  }

  function Prepend(argv: Command, r: ArgsRead): ArgsRead {
    match r
    case GotArgs(more, rest) => GotArgs(argv + more, rest)
    case ArgsStop(w) => ArgsStop(w)
  }

  lemma PrependStep(argv: Command, a: Arg, r: ArgsRead)
    ensures Prepend(argv, Prepend([a], r)) == Prepend(argv + [a], r)
  {
    if r.GotArgs? { assert argv + ([a] + r.argv) == argv + [a] + r.argv; }
  }

  lemma ArgSuffix(s: seq<Byte>)
    ensures ReadArg(s).GotArg? ==> |ReadArg(s).rest| <= |s| && s[|s| - |ReadArg(s).rest|..] == ReadArg(s).rest
  {
  }

  lemma {:induction false} ArgsSuffix(s: seq<Byte>, argc: nat)
    ensures ReadArgs(s, argc).GotArgs? ==>
      |ReadArgs(s, argc).rest| <= |s| && s[|s| - |ReadArgs(s, argc).rest|..] == ReadArgs(s, argc).rest
    decreases argc
  {
    if argc > 0 && ReadArg(s).GotArg? {
      ArgSuffix(s);
      ArgsSuffix(ReadArg(s).rest, argc - 1);
    }
  }

  lemma RestIsSuffix(s: seq<Byte>, argc: nat, n: nat)
    requires n <= |s| && ReadArgs(s[n..], argc).GotArgs?
    ensures var rest := ReadArgs(s[n..], argc).rest; |rest| <= |s| && s[|s| - |rest|..] == rest
  {
    ArgsSuffix(s[n..], argc);
  }

  // ----- Lines and numbers as the writer leaves them

  predicate NoLF(s: seq<Byte>) { forall i :: 0 <= i < |s| ==> s[i] != LF }

  lemma {:induction false} LineFromIs(s: seq<Byte>, i: nat, n: nat)
    requires i < n <= |s| && n <= LINE_LIMIT && NoLF(s[..n - 1]) && (s[n - 1] == LF || n == |s|)
    ensures LineFrom(s, i) == n
    decreases n - i
  {
    if i + 1 < n {
      assert s[i] == s[..n - 1][i];
      LineFromIs(s, i + 1, n);
    }
  }

  lemma {:induction false} DigitRunIs(d: seq<Byte>, t: seq<Byte>)
    requires AllDigits(d) && (t == [] || !IsDigit(t[0]))
    ensures DigitRun(d + t) == d
    decreases |d|
  {
    if d == [] {
      assert d + t == t;
    } else {
      assert (d + t)[1..] == d[1..] + t;
      DigitRunIs(d[1..], t);
    }
  }

  lemma StrtolIs(d: seq<Byte>, t: seq<Byte>)
    requires AllDigits(d) && d != [] && (t == [] || !IsDigit(t[0]))
    ensures Strtol(d + t) == Saturate(Val(d))
  {
    DigitRunIs(d, t);
    assert (d + t)[0] == d[0];
  }

  /** A header line `<type><n>\r\n` of the log fits the line buffer and reads back as n. */
  lemma HeaderReads(kind: Byte, n: nat, t: seq<Byte>)
    requires kind != LF && n < LONG_LIMIT
    ensures var s := [kind] + Dec(n) + CRLF + t; var k := |Dec(n)| + 3;
      LineLength(s) == k && s[0] == kind && Strtol(s[1..k]) == n && s[k..] == t && s[1] != 0
  {
    hide LineLength, Strtol, Dec, AllDigits;
    var d, s, k := Dec(n), [kind] + Dec(n) + CRLF + t, |Dec(n)| + 3;
    HeaderLine(kind, n, t);
    HeaderNumber(n);
    assert s[1..k] == d + CRLF;
    assert s[1] == d[0];
    DigitNotNul(n);
  }

  lemma HeaderLine(kind: Byte, n: nat, t: seq<Byte>)
    requires kind != LF && n < LONG_LIMIT
    ensures LineLength([kind] + Dec(n) + CRLF + t) == |Dec(n)| + 3
  {
    var d, s, k := Dec(n), [kind] + Dec(n) + CRLF + t, |Dec(n)| + 3;
    Pow10Is19();
    DecLength(n, 19);
    assert s[..k - 1] == [kind] + d + [CR];
    assert NoLF([kind] + d + [CR]);
    LineFromIs(s, 0, k);
  }

  lemma HeaderNumber(n: nat)
    requires n < LONG_LIMIT
    ensures Strtol(Dec(n) + CRLF) == n
  {
    hide Strtol, Dec;
    ValDec(n);
    StrtolIs(Dec(n), CRLF);
  }

  lemma Pow10Is19()
    ensures Pow10(19) == 10_000_000_000_000_000_000
  {
    assert Pow10(4) == 10_000;
    assert Pow10(8) == 100_000_000;
    assert Pow10(12) == 1_000_000_000_000;
    assert Pow10(16) == 10_000_000_000_000_000;
  }

  // ----- Whole arguments and commands

  lemma ArgReads(a: Arg, t: seq<Byte>)
    requires |a| < LONG_LIMIT
    ensures ReadArg(EncodeArg(a) + t) == GotArg(a, t)
  {
    hide LineLength, Strtol;
    HeaderReads(DOLLAR, |a|, a + CRLF + t);
    assert EncodeArg(a) + t == [DOLLAR] + Dec(|a|) + CRLF + (a + CRLF + t);
    assert (a + CRLF + t)[..|a|] == a && (a + CRLF + t)[|a| + 2..] == t;
  }

  lemma {:induction false} ArgsReads(argv: Command, t: seq<Byte>)
    requires forall i :: 0 <= i < |argv| ==> |argv[i]| < LONG_LIMIT
    ensures ReadArgs(EncodeArgs(argv) + t, |argv|) == GotArgs(argv, t)
    decreases |argv|
  {
    hide ReadArg, EncodeArg;
    if argv == [] {
      assert EncodeArgs(argv) + t == t;
    } else {
      EncodeArgsFront(argv);
      var more := EncodeArgs(argv[1..]) + t;
      assert EncodeArgs(argv) + t == EncodeArg(argv[0]) + more;
      ArgReads(argv[0], more);
      ArgsReads(argv[1..], t);
      assert [argv[0]] + argv[1..] == argv;
    }
  }

  /** The loader reads back exactly the command that was written. */
  lemma CommandReads(argv: Command, t: seq<Byte>)
    requires Loggable(argv)
    ensures ReadCommand(EncodeCommand(argv) + t) == GotCommand(argv, t)
  {
    hide LineLength, Strtol, ReadArgs, EncodeArgs;
    HeaderReads(STAR, |argv|, EncodeArgs(argv) + t);
    assert EncodeCommand(argv) + t == [STAR] + Dec(|argv|) + CRLF + (EncodeArgs(argv) + t);
    ArgsReads(argv, t);
  }

  // ----- Cut anywhere inside

  /** A header cut before its line feed is read to the end of the file. */
  lemma HeaderCut(kind: Byte, n: nat, s: seq<Byte>)
    requires kind != LF && n < LONG_LIMIT && s != [] && s <= [kind] + Dec(n) + CRLF && |s| < |Dec(n)| + 3
    ensures LineLength(s) == |s| && s[0] == kind && |s| < LINE_LIMIT && s[|s| - 1] != LF
    ensures |s| > 1 ==> s[1] == Dec(n)[0] && Strtol(s[1..]) == Saturate(Val(Dec(n)[..if |s| - 1 < |Dec(n)| then |s| - 1 else |Dec(n)|]))
    ensures |s| == 1 ==> Strtol(s[1..]) == 0
  {
    hide LineLength, Strtol;
    CutLine(kind, n, s);
    CutNumber(kind, n, s);
  }

  lemma CutLine(kind: Byte, n: nat, s: seq<Byte>)
    requires kind != LF && n < LONG_LIMIT && s != [] && s <= [kind] + Dec(n) + CRLF && |s| < |Dec(n)| + 3
    ensures LineLength(s) == |s| && s[0] == kind && |s| < LINE_LIMIT && s[|s| - 1] != LF
  {
    Pow10Is19();
    DecLength(n, 19);
    assert NoLF(s);
    LineFromIs(s, 0, |s|);
  }

  lemma CutNumber(kind: Byte, n: nat, s: seq<Byte>)
    requires s != [] && s <= [kind] + Dec(n) + CRLF && |s| < |Dec(n)| + 3
    ensures |s| > 1 ==> s[1] == Dec(n)[0] && Strtol(s[1..]) == Saturate(Val(Dec(n)[..if |s| - 1 < |Dec(n)| then |s| - 1 else |Dec(n)|]))
    ensures |s| == 1 ==> Strtol(s[1..]) == 0
  {
    hide Dec;
    var d := Dec(n);
    var k := if |s| - 1 < |d| then |s| - 1 else |d|;
    if |s| > 1 {
      hide Strtol;
      assert s[1..] == d[..k] + s[1 + k..];
      StrtolIs(d[..k], s[1 + k..]);
    }
  }

  lemma ArgIsCut(a: Arg, s: seq<Byte>)
    requires |a| < LONG_LIMIT && s <= EncodeArg(a) && s != EncodeArg(a)
    ensures ReadArg(s) == ArgCut
  {
    hide LineLength, Strtol;
    var h := [DOLLAR] + Dec(|a|) + CRLF;
    assert EncodeArg(a) == h + (a + CRLF);
    if s != [] {
      if |s| < |h| {
        HeaderCut(DOLLAR, |a|, s);
        assert s[|s|..] == [] && s[1..|s|] == s[1..];
      } else {
        var t := s[|h|..];
        assert s == h + t;
        HeaderReads(DOLLAR, |a|, t);
      }
    }
  }

  lemma {:induction false} ArgsAreCut(argv: Command, s: seq<Byte>)
    requires forall i :: 0 <= i < |argv| ==> |argv[i]| < LONG_LIMIT
    requires s <= EncodeArgs(argv) && s != EncodeArgs(argv)
    ensures ReadArgs(s, |argv|) == ArgsStop(ArgCut)
    decreases |argv|
  {
    hide ReadArg, EncodeArg;
    EncodeArgsFront(argv);
    var e := EncodeArg(argv[0]);
    if |s| < |e| {
      assert s <= e;
      ArgIsCut(argv[0], s);
    } else {
      var t := s[|e|..];
      assert s == e + t;
      assert t <= EncodeArgs(argv[1..]) && t != EncodeArgs(argv[1..]);
      ArgReads(argv[0], t);
      ArgsAreCut(argv[1..], t);
    }
  }

  lemma {:induction false} ArgsOfNothing(argc: nat)
    requires argc > 0
    ensures ReadArgs([], argc) == ArgsStop(ArgCut)
  {
  }

  /** A digit prefix of a positive int is a positive int. */
  lemma {:induction false} PrefixPositive(n: nat, k: nat)
    requires 0 < n && 0 < k <= |Dec(n)|
    ensures 0 < Val(Dec(n)[..k]) <= n
    decreases |Dec(n)| - k
  {
    var d := Dec(n);
    ValDec(n);
    DecLeading(n);
    ValPositive(d[..k]);
    if k < |d| {
      PrefixPositive(n, k + 1);
      assert d[..k + 1][..k] == d[..k];
    } else {
      assert d[..k] == d;
    }
  }

  lemma CommandHeaderCut(argv: Command, s: seq<Byte>)
    requires Loggable(argv) && s != [] && s <= [STAR] + Dec(|argv|) + CRLF && |s| < |Dec(|argv|)| + 3
    ensures ReadCommand(s) == Cut
  {
    hide LineLength, Atoi, ReadArgs, Dec, AllDigits;
    HeaderCut(STAR, |argv|, s);
    assert s[|s|..] == [] && s[1..|s|] == s[1..];
    if |s| > 1 {
      DigitNotNul(|argv|);
      CutCount(argv, s);
      ArgsOfNothing(Atoi(s[1..]));
    }
  }

  /** The digits left of the argument count are still a positive int. */
  lemma CutCount(argv: Command, s: seq<Byte>)
    requires Loggable(argv) && |s| > 1 && s <= [STAR] + Dec(|argv|) + CRLF && |s| < |Dec(|argv|)| + 3
    ensures Atoi(s[1..]) >= 1
  {
    hide LineLength, Strtol, Dec, AllDigits;
    HeaderCut(STAR, |argv|, s);
    PrefixPositive(|argv|, if |s| - 1 < |Dec(|argv|)| then |s| - 1 else |Dec(|argv|)|);
  }

  lemma DigitNotNul(n: nat)
    ensures Dec(n)[0] != 0
  {
    assert IsDigit(Dec(n)[0]);
  }

  lemma CommandIsCut(argv: Command, s: seq<Byte>)
    requires Loggable(argv) && s != [] && s <= EncodeCommand(argv) && s != EncodeCommand(argv)
    ensures ReadCommand(s) == Cut
  {
    hide LineLength, Strtol, ReadArgs, EncodeArgs;
    var h := [STAR] + Dec(|argv|) + CRLF;
    assert EncodeCommand(argv) == h + EncodeArgs(argv);
    if |s| < |h| {
      assert s <= h;
      CommandHeaderCut(argv, s);
    } else {
      var t := s[|h|..];
      assert s == h + t;
      HeaderReads(STAR, |argv|, t);
      ArgsAreCut(argv, t);
    }
  }

  lemma NothingToRead()
    ensures ReadCommand([]) == Eof
  {
  }

  // ----- Whole logs

  predicate AllLoggable(cmds: seq<Command>) { forall i :: 0 <= i < |cmds| ==> Loggable(cmds[i]) }

  /** The first k commands of the log are complete in its first `cut` bytes, and no more are. */
  predicate CompleteUpTo(cmds: seq<Command>, cut: nat, k: nat) {
    && k <= |cmds| && |EncodeLog(cmds[..k])| <= cut <= |EncodeLog(cmds)|
    && (k < |cmds| ==> cut < |EncodeLog(cmds[..k + 1])|)
  }

  /** The first u commands are known, and the one after them, if there is one, is not. */
  ghost predicate KnownUpTo(known: Table, cmds: seq<Command>, u: nat) {
    && u <= |cmds| && (forall i :: 0 <= i < u ==> cmds[i] != [] && known(cmds[i][0]))
    && (u < |cmds| ==> cmds[u] != [] && !known(cmds[u][0]))
  }

  /** What loading makes of the first k commands, whole, and `left` more bytes of the next. */
  ghost function Expected(cmds: seq<Command>, k: nat, u: nat, left: nat, ran: seq<Command>, offset: nat,
                          loadTruncated: bool): LoadResult
    requires k <= |cmds| && (u < k ==> cmds[u] != [])
  {
    var size := |EncodeLog(cmds[..k])|;
    if u < k then Rejects(ran + cmds[..u], cmds[u][0])
    else if loadTruncated || (left == 0 && !InMulti(ran + cmds[..k])) then Loaded(ran + cmds[..k], offset + size)
    else Exits(ran + cmds[..k], if left == 0 then Eof else Cut)
  }

  lemma {:induction false} LoadsWhatIsComplete(cmds: seq<Command>, s: seq<Byte>, k: nat, known: Table, u: nat,
                                               ran: seq<Command>, offset: nat, loadTruncated: bool)
    requires AllLoggable(cmds) && s <= EncodeLog(cmds) && CompleteUpTo(cmds, |s|, k) && KnownUpTo(known, cmds, u)
    ensures LoadFrom(s, known, ran, offset, loadTruncated) ==
      Expected(cmds, k, u, |s| - |EncodeLog(cmds[..k])|, ran, offset, loadTruncated)
    decreases |cmds|
  {
    hide ReadCommand, EncodeCommand, EncodeLog, CompleteUpTo, InMulti;
    if cmds == [] || |s| == 0 {
      EmptyComplete(cmds, s, k, ran);
      NothingToRead();
    } else if k == 0 {
      FirstIsCut(cmds, s);
      CommandIsCut(cmds[0], s);
      assert ran + cmds[..0] == ran && cmds[..0] == [];
    } else {
      FirstIsWhole(cmds, s, k);
      var c, more := EncodeCommand(cmds[0]), cmds[1..];
      var t := s[|c|..];
      CommandReads(cmds[0], t);
      if u == 0 {
        assert ran + cmds[..0] == ran;
      } else {
        LoadsWhatIsComplete(more, t, k - 1, known, u - 1, ran + [cmds[0]], offset + |c|, loadTruncated);
        assert ran + [cmds[0]] + more[..k - 1] == ran + cmds[..k];
        assert u <= k ==> ran + [cmds[0]] + more[..u - 1] == ran + cmds[..u];
      }
    }
  }

  /** Nothing is complete: what there is, is a proper part of the first command. */
  lemma FirstIsCut(cmds: seq<Command>, s: seq<Byte>)
    requires cmds != [] && s <= EncodeLog(cmds) && CompleteUpTo(cmds, |s|, 0)
    ensures s <= EncodeCommand(cmds[0]) && s != EncodeCommand(cmds[0]) && EncodeLog([]) == []
  {
    hide EncodeCommand;
    EncodeLogFront(cmds);
    EncodeLogFront(cmds[..1]);
    assert cmds[..1][0] == cmds[0] && cmds[..1][1..] == [];
  }

  /** The first command is complete: it is followed by a part of the rest of the log. */
  lemma FirstIsWhole(cmds: seq<Command>, s: seq<Byte>, k: nat)
    requires cmds != [] && s <= EncodeLog(cmds) && CompleteUpTo(cmds, |s|, k) && k > 0
    ensures var c, more := EncodeCommand(cmds[0]), cmds[1..];
      && k <= |cmds| && |c| <= |s| && s == c + s[|c|..] && s[|c|..] <= EncodeLog(more) && CompleteUpTo(more, |s| - |c|, k - 1)
      && |EncodeLog(cmds[..k])| == |c| + |EncodeLog(more[..k - 1])|
  {
    hide EncodeCommand, EncodeLog;
    var c, more := EncodeCommand(cmds[0]), cmds[1..];
    EncodeLogFront(cmds);
    EncodeLogFront(cmds[..k]);
    assert cmds[..k][0] == cmds[0] && cmds[..k][1..] == more[..k - 1];
    if k < |cmds| {
      EncodeLogFront(cmds[..k + 1]);
      assert cmds[..k + 1][0] == cmds[0] && cmds[..k + 1][1..] == more[..k];
    }
  }

  lemma EmptyComplete(cmds: seq<Command>, s: seq<Byte>, k: nat, ran: seq<Command>)
    requires s <= EncodeLog(cmds) && CompleteUpTo(cmds, |s|, k) && (cmds == [] || |s| == 0)
    ensures s == [] && k == 0 && ran + cmds[..k] == ran && EncodeLog(cmds[..k]) == []
  {
    hide EncodeCommand;
    if k > 0 {
      assert EncodeLog(cmds[..k]) == EncodeLog(cmds[..k][..k - 1]) + EncodeCommand(cmds[..k][k - 1]);
      NonEmptyCommand(cmds[..k][k - 1]);
      assert false;
    }
  }

  lemma NonEmptyCommand(argv: Command)
    ensures |EncodeCommand(argv)| > 0
  {
  }

  /**
   A log of whole commands cut at any byte.  If one of the complete commands is unknown, the server exits at the first
   such.  Otherwise, with aof-load-truncated on, the loader runs exactly the complete commands, even those of a MULTI
   left open, and leaves the file ending with them; with it off, it does so only if the cut falls between two commands
   outside a MULTI, and else the server exits.
   */
  lemma TruncatedLoad(cmds: seq<Command>, cut: nat, k: nat, known: Table, u: nat, loadTruncated: bool)
    requires AllLoggable(cmds) && 0 < cut <= |EncodeLog(cmds)| && CompleteUpTo(cmds, cut, k) && KnownUpTo(known, cmds, u)
    ensures var size := |EncodeLog(cmds[..k])|;
      Load(EncodeLog(cmds)[..cut], known, loadTruncated) ==
      if u < k then Rejects(cmds[..u], cmds[u][0])
      else if loadTruncated || (cut == size && !InMulti(cmds[..k])) then Loaded(cmds[..k], size)
      else Exits(cmds[..k], if cut == size then Eof else Cut)
  {
    hide LoadFrom, InMulti, EncodeLog;
    LoadsWhatIsComplete(cmds, EncodeLog(cmds)[..cut], k, known, u, [], 0, loadTruncated);
    assert [] + cmds[..k] == cmds[..k] && (u < k ==> [] + cmds[..u] == cmds[..u]);
  }

  /** Loading inverts writing, of commands the server knows and with every MULTI closed. */
  lemma LoadInvertsWrite(cmds: seq<Command>, known: Table, loadTruncated: bool)
    requires AllLoggable(cmds) && cmds != [] && KnownUpTo(known, cmds, |cmds|) && (loadTruncated || !InMulti(cmds))
    ensures Load(EncodeLog(cmds), known, loadTruncated) == Loaded(cmds, |EncodeLog(cmds)|)
  {
    hide Load, InMulti;
    var all := EncodeLog(cmds);
    assert cmds[..|cmds|] == cmds && all[..|all|] == all;
    NonEmptyCommand(cmds[|cmds| - 1]);
    TruncatedLoad(cmds, |all|, |cmds|, known, |cmds|, loadTruncated);
  }

  /** Some number of commands is always the complete ones. */
  lemma {:induction false} SomeComplete(cmds: seq<Command>, cut: nat) returns (k: nat)
    requires cut <= |EncodeLog(cmds)|
    ensures CompleteUpTo(cmds, cut, k)
    decreases |cmds|
  {
    assert cmds[..|cmds|] == cmds;
    if cut == |EncodeLog(cmds)| {
      k := |cmds|;
    } else {
      var init := cmds[..|cmds| - 1];
      if |EncodeLog(init)| <= cut {
        k := |init|;
      } else {
        k := SomeComplete(init, cut);
        assert init[..k] == cmds[..k] && (k < |init| ==> init[..k + 1] == cmds[..k + 1]);
        assert k == |init| ==> init[..k] == init;
      }
    }
  }
}
