/** How commands are written to the append only file. */
module AofCommand {
  import opened Bytes

  type Arg = seq<Byte>
  type Command = seq<Arg>

  const INT_LIMIT := 0x8000_0000
  const LONG_LIMIT := 0x8000_0000_0000_0000

  function EncodeArg(a: Arg): (s: seq<Byte>) { [DOLLAR] + Dec(|a|) + CRLF + a + CRLF }

  function EncodeArgs(argv: Command): seq<Byte> {
    if argv == [] then [] else EncodeArgs(argv[..|argv| - 1]) + EncodeArg(argv[|argv| - 1])
  }

  function EncodeCommand(argv: Command): seq<Byte> { [STAR] + Dec(|argv|) + CRLF + EncodeArgs(argv) }

  function EncodeLog(cmds: seq<Command>): seq<Byte> {
    if cmds == [] then [] else EncodeLog(cmds[..|cmds| - 1]) + EncodeCommand(cmds[|cmds| - 1])
  }

  /** The sizes the C types can hold. */
  predicate Loggable(argv: Command) {
    1 <= |argv| < INT_LIMIT && forall i :: 0 <= i < |argv| ==> |argv[i]| < LONG_LIMIT
  }

  /** catAppendOnlyGenericCommand */
  method CatAppendOnlyGenericCommand(dst: seq<Byte>, argv: Command) returns (r: seq<Byte>)
    ensures r == dst + EncodeCommand(argv)
  {
    r := dst + ([STAR] + Dec(|argv|) + CRLF);
    var j := 0;
    while j < |argv|
      invariant 0 <= j <= |argv|
      invariant r == dst + ([STAR] + Dec(|argv|) + CRLF + EncodeArgs(argv[..j]))
    {
      var o := argv[j];
      assert argv[..j + 1][..j] == argv[..j];
      r := r + ([DOLLAR] + Dec(|o|) + CRLF);
      r := r + o;
      r := r + CRLF;
      j := j + 1;
    }
    assert argv[..j] == argv;
  }

  // ----- Reading front to back

  lemma {:induction false} EncodeArgsFront(argv: Command)
    requires argv != []
    ensures EncodeArgs(argv) == EncodeArg(argv[0]) + EncodeArgs(argv[1..])
    decreases |argv|
  {
    hide EncodeArg;
    var init := argv[..|argv| - 1];
    if init == [] {
      assert argv[1..] == [] && argv == [argv[0]];
    } else {
      EncodeArgsFront(init);
      assert init[1..] == argv[1..][..|argv| - 2];
      assert argv[1..][|argv| - 2] == argv[|argv| - 1];
    }
  }

  lemma {:induction false} EncodeLogFront(cmds: seq<Command>)
    requires cmds != []
    ensures EncodeLog(cmds) == EncodeCommand(cmds[0]) + EncodeLog(cmds[1..])
    decreases |cmds|
  {
    hide EncodeCommand;
    var init := cmds[..|cmds| - 1];
    if init == [] {
      assert cmds[1..] == [] && cmds == [cmds[0]];
    } else {
      EncodeLogFront(init);
      assert init[1..] == cmds[1..][..|cmds| - 2];
      assert cmds[1..][|cmds| - 2] == cmds[|cmds| - 1];
    }
  }

  lemma {:induction false} EncodeLogConcat(a: seq<Command>, b: seq<Command>)
    ensures EncodeLog(a + b) == EncodeLog(a) + EncodeLog(b)
    decreases |b|
  {
    hide EncodeCommand;
    if b == [] {
      assert a + b == a;
    } else {
      var init := b[..|b| - 1];
      EncodeLogConcat(a, init);
      assert (a + b)[..|a + b| - 1] == a + init;
      assert (a + b)[|a + b| - 1] == b[|b| - 1];
    }
  }
}
