/**
 Logs that are not what the writer leaves: whatever aof-load-truncated says, a malformed command makes the server exit
 without cutting the file, after running exactly the good commands before it.
 */
module AofMalformed {
  import opened Bytes
  import opened AofCommand
  import opened AofLoader

  predicate AllKnown(known: Table, cmds: seq<Command>) { forall i :: 0 <= i < |cmds| ==> cmds[i] != [] && known(cmds[i][0]) }

  /** After whole known commands the loader goes on with what follows them. */
  lemma {:induction false} LoadGoesOn(cmds: seq<Command>, tail: seq<Byte>, known: Table, ran: seq<Command>, offset: nat,
                                      loadTruncated: bool)
    requires AllLoggable(cmds) && AllKnown(known, cmds)
    ensures LoadFrom(EncodeLog(cmds) + tail, known, ran, offset, loadTruncated) ==
      LoadFrom(tail, known, ran + cmds, offset + |EncodeLog(cmds)|, loadTruncated)
    decreases |cmds|
  {
    hide ReadCommand, EncodeCommand, EncodeLog, InMulti;
    if cmds == [] {
      EmptyLog();
      assert EncodeLog(cmds) + tail == tail && ran + cmds == ran;
    } else {
      var c, more := EncodeCommand(cmds[0]), cmds[1..];
      EncodeLogFront(cmds);
      var rest := EncodeLog(more) + tail;
      assert EncodeLog(cmds) + tail == c + rest;
      CommandReads(cmds[0], rest);
      LoadGoesOn(more, tail, known, ran + [cmds[0]], offset + |c|, loadTruncated);
      assert ran + [cmds[0]] + more == ran + cmds;
    }
  }

  lemma EmptyLog()
    ensures EncodeLog([]) == []
  {
  }

  /** Anything but the end of the file, a command or a command cut short makes the server exit, with either setting. */
  lemma FailureExits(s: seq<Byte>, known: Table, ran: seq<Command>, offset: nat, loadTruncated: bool)
    requires !ReadCommand(s).GotCommand? && !ReadCommand(s).Eof? && !ReadCommand(s).Cut?
    ensures LoadFrom(s, known, ran, offset, loadTruncated) == Exits(ran, ReadCommand(s))
  {
    hide ReadCommand;
  }

  // ----- What is malformed

  function Decimal(v: int): (s: seq<Byte>)
    ensures s != []
  {
    if v < 0 then [MINUS] + Dec(0 - v) else Dec(v)
  }

  /** A command that does not begin with `*`. */
  predicate NoStar(s: seq<Byte>) { s != [] && s[0] != STAR }

  /** A count whose low 32 bits are below one. */
  ghost predicate BadCount(s: seq<Byte>) {
    exists v: int, rest: seq<Byte> :: CountHeader(s, v, rest) && AsInt(v) < 1
  }

  predicate CountHeader(s: seq<Byte>, v: int, rest: seq<Byte>) {
    -LONG_LIMIT < v < LONG_LIMIT && s == [STAR] + Decimal(v) + CRLF + rest
  }

  /** Some good arguments, then one that does not begin with `$`. */
  ghost predicate BadArgument(s: seq<Byte>) { exists argc: nat, args: Command, bad: seq<Byte> :: Wanting(s, argc, args, bad) }

  predicate Wanting(s: seq<Byte>, argc: nat, args: Command, bad: seq<Byte>) {
    && |args| < argc < INT_LIMIT && (forall i :: 0 <= i < |args| ==> |args[i]| < LONG_LIMIT)
    && bad != [] && bad[0] != DOLLAR && s == [STAR] + Dec(argc) + CRLF + (EncodeArgs(args) + bad)
  }

  lemma {:induction false} ArgsReachBad(args: Command, argc: nat, bad: seq<Byte>)
    requires |args| < argc && (forall i :: 0 <= i < |args| ==> |args[i]| < LONG_LIMIT) && bad != [] && bad[0] != DOLLAR
    ensures ReadArgs(EncodeArgs(args) + bad, argc) == ArgsStop(ArgBad)
    decreases |args|
  {
    hide EncodeArg, LineLength, Strtol;
    if args == [] {
      assert EncodeArgs(args) + bad == bad;
    } else {
      hide ReadArg;
      EncodeArgsFront(args);
      var more := EncodeArgs(args[1..]) + bad;
      assert EncodeArgs(args) + bad == EncodeArg(args[0]) + more;
      ArgReads(args[0], more);
      ArgsReachBad(args[1..], argc - 1, bad);
    }
  }

  lemma BadArgumentReads(s: seq<Byte>, argc: nat, args: Command, bad: seq<Byte>)
    requires Wanting(s, argc, args, bad)
    ensures ReadCommand(s) == Bad
  {
    hide LineLength, Strtol, ReadArgs, EncodeArgs, Dec;
    HeaderReads(STAR, argc, EncodeArgs(args) + bad);
    ArgsReachBad(args, argc, bad);
  }

  lemma BadCountReads(s: seq<Byte>, v: int, rest: seq<Byte>)
    requires CountHeader(s, v, rest) && AsInt(v) < 1
    ensures ReadCommand(s) == Bad
  {
    hide LineLength, Strtol, ReadArgs, Dec, AsInt;
    if v >= 0 { HeaderReads(STAR, v, rest); } else { NegativeHeader(STAR, 0 - v, rest); }
  }

  /** A header with a negative number reads back as that number. */
  lemma NegativeHeader(kind: Byte, n: nat, t: seq<Byte>)
    requires kind != LF && 0 < n < LONG_LIMIT
    ensures var s := [kind] + ([MINUS] + Dec(n)) + CRLF + t; var k := |Dec(n)| + 4;
      LineLength(s) == k && s[0] == kind && s[1] == MINUS && Strtol(s[1..k]) == 0 - n && s[k..] == t
  {
    hide LineLength, Strtol, Dec;
    var s, k := [kind] + ([MINUS] + Dec(n)) + CRLF + t, |Dec(n)| + 4;
    NegativeLine(kind, n, t);
    NegativeNumber(n);
    assert s[1..k] == [MINUS] + (Dec(n) + CRLF);
  }

  lemma NegativeLine(kind: Byte, n: nat, t: seq<Byte>)
    requires kind != LF && n < LONG_LIMIT
    ensures LineLength([kind] + ([MINUS] + Dec(n)) + CRLF + t) == |Dec(n)| + 4
  {
    var d, s, k := Dec(n), [kind] + ([MINUS] + Dec(n)) + CRLF + t, |Dec(n)| + 4;
    Pow10Is19();
    DecLength(n, 19);
    assert s[..k - 1] == [kind] + ([MINUS] + d) + [CR];
    assert NoLF([kind] + ([MINUS] + d) + [CR]);
    LineFromIs(s, 0, k);
  }

  lemma NegativeNumber(n: nat)
    requires 0 < n < LONG_LIMIT
    ensures Strtol([MINUS] + (Dec(n) + CRLF)) == 0 - n
  {
    hide Dec;
    var s := [MINUS] + (Dec(n) + CRLF);
    assert s[1..] == Dec(n) + CRLF;
    DigitRunIs(Dec(n), CRLF);
    ValDec(n);
  }

  /**
   A log of known whole commands followed by anything malformed: the server exits with a format error after running
   exactly those commands, and the file is not cut, with aof-load-truncated on as well as off.
   */
  lemma MalformedExits(cmds: seq<Command>, tail: seq<Byte>, known: Table, loadTruncated: bool)
    requires AllLoggable(cmds) && AllKnown(known, cmds) && (NoStar(tail) || BadCount(tail) || BadArgument(tail))
    ensures Load(EncodeLog(cmds) + tail, known, loadTruncated) == Exits(cmds, Bad)
  {
    hide LoadFrom, EncodeLog, ReadArgs;
    if BadCount(tail) {
      var v: int, rest: seq<Byte> :| CountHeader(tail, v, rest) && AsInt(v) < 1;
      BadCountReads(tail, v, rest);
    } else if BadArgument(tail) {
      var argc: nat, args: Command, bad: seq<Byte> :| Wanting(tail, argc, args, bad);
      BadArgumentReads(tail, argc, args, bad);
    }
    LoadGoesOn(cmds, tail, known, [], 0, loadTruncated);
    assert [] + cmds == cmds;
    FailureExits(tail, known, cmds, |EncodeLog(cmds)|, loadTruncated);
  }

  /** One command and a stray byte: nothing is cut, even with aof-load-truncated on. */
  lemma StrayByteExits(cmd: Command, b: Byte, known: Table)
    requires Loggable(cmd) && known(cmd[0]) && b != STAR
    ensures Load(EncodeCommand(cmd) + [b], known, true) == Exits([cmd], Bad)
  {
    hide Load, EncodeCommand;
    assert [cmd][..0] == [] && EncodeLog([cmd]) == EncodeLog([cmd][..0]) + EncodeCommand(cmd) == EncodeCommand(cmd);
    MalformedExits([cmd], [b], known, true);
  }

  /** An argument with a negative length stops the server as well. */
  lemma NegativeLengthExits(cmds: seq<Command>, argc: nat, n: nat, rest: seq<Byte>, known: Table, loadTruncated: bool)
    requires AllLoggable(cmds) && AllKnown(known, cmds) && 0 < argc < INT_LIMIT && 0 < n < LONG_LIMIT
    ensures var tail := [STAR] + Dec(argc) + CRLF + ([DOLLAR] + ([MINUS] + Dec(n)) + CRLF + rest);
      Load(EncodeLog(cmds) + tail, known, loadTruncated) == Exits(cmds, OutOfMemory)
  {
    hide LoadFrom, EncodeLog, LineLength, Strtol, Dec;
    var arg := [DOLLAR] + ([MINUS] + Dec(n)) + CRLF + rest;
    var tail := [STAR] + Dec(argc) + CRLF + arg;
    HeaderReads(STAR, argc, arg);
    NegativeHeader(DOLLAR, n, rest);
    assert ReadArg(arg) == ArgOom;
    LoadGoesOn(cmds, tail, known, [], 0, loadTruncated);
    assert [] + cmds == cmds;
    FailureExits(tail, known, cmds, |EncodeLog(cmds)|, loadTruncated);
  }

  // ----- When a MULTI is open

  /** The same letters, whatever the case of the first name's. */
  predicate SameName(a: Arg, name: Arg) {
    |a| == |name| && forall i :: 0 <= i < |a| ==> a[i] == name[i] || (65 <= a[i] <= 90 && a[i] + 32 == name[i])
  }

  predicate Calls(argv: Command, name: Arg) { argv != [] && SameName(argv[0], name) }

  predicate Closes(argv: Command) { Calls(argv, EXEC) || Calls(argv, DISCARD) }

  /** A MULTI at i that nothing closes before command n. */
  predicate OpenSince(cmds: seq<Command>, i: nat, n: nat) {
    i < n <= |cmds| && Calls(cmds[i], MULTI) && forall k :: i < k < n ==> !Closes(cmds[k])
  }

  lemma NameIs(a: Arg, name: Arg)
    requires forall i :: 0 <= i < |name| ==> 97 <= name[i] <= 122
    ensures Lower(a) == name <==> SameName(a, name)
  {
    if Lower(a) == name {
      forall i | 0 <= i < |a|
        ensures a[i] == name[i] || (65 <= a[i] <= 90 && a[i] + 32 == name[i])
      {
        assert Lower(a)[i] == name[i];
      }
    }
  }

  /** The loader takes a MULTI for open exactly when some MULTI has had no EXEC or DISCARD after it. */
  lemma {:induction false} OpenMultiExactly(cmds: seq<Command>)
    ensures InMulti(cmds) <==> exists i: nat :: OpenSince(cmds, i, |cmds|)
    decreases |cmds|
  {
    hide Lower, Calls;
    if cmds != [] {
      var init, last := cmds[..|cmds| - 1], cmds[|cmds| - 1];
      OpenMultiExactly(init);
      StepOfMulti(InMulti(init), last);
      if i: nat :| OpenSince(init, i, |init|) {
        assert !Closes(last) ==> OpenSince(cmds, i, |cmds|);
      }
      if Calls(last, MULTI) { assert OpenSince(cmds, |init|, |cmds|); }
      if i: nat :| OpenSince(cmds, i, |cmds|) {
        assert i < |init| ==> OpenSince(init, i, |init|) && !Closes(cmds[|init|]);
      }
    }
  }

  lemma StepOfMulti(multi: bool, argv: Command)
    ensures MultiAfter(multi, argv) <==> Calls(argv, MULTI) || (multi && !Closes(argv))
  {
    hide Lower, SameName;
    if argv != [] {
      NameIs(argv[0], MULTI);
      NameIs(argv[0], EXEC);
      NameIs(argv[0], DISCARD);
    }
  }
}
