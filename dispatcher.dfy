/** The command dispatcher: one text line from the host becomes one probe
    operation and one reply line. */
module Dispatcher {
  import opened Text
  import opened Wire
  import opened ModeControl
  import opened Access
  import opened Bits

  /** What a command line asks for, once split, upper-cased and its
      hexadecimal arguments parsed. */
  datatype Request =
    | Blank                                         // no token at all
    | ResetCpu                                      // RESET
    | Stop                                          // STOP
    | Go                                            // GO
    | ReadReg(token: string, reg: nat)              // READ_REG <reg>
    | WriteReg(token: string, reg: nat, val: nat)   // WRITE_REG <reg> <val>
    | Status                                        // STATUS
    | Malformed                                     // unknown verb or wrong arity
    | BadHex(message: string)                       // `int(_, 16)` raised

  /** A parsed argument, or the message of the exception that parsing it raised. */
  datatype Result = Ok(value: nat) | Err(message: string)

  /** The `int(arg, 16)` of an argument, or the message of its `ValueError`:
      an argument parses exactly when it is a non-empty run of hexadecimal
      digits, to a value that fits in that many hexadecimal places. */
  function HexArg(arg: string): (r: Result)
    ensures r.Ok? <==> arg != [] && forall i :: 0 <= i < |arg| ==> IsHexDigit(arg[i])
    ensures r.Ok? ==> r.value < Pow16(|arg|)
    ensures r.Err? ==> r.message == IntParseError(arg)
  {
    match ParseHex(arg)
    case Some(v) => Ok(v)
    case None => Err(IntParseError(arg))
  }

  /** An argument written as `{:04X}` parses back to the value written. */
  lemma HexArgRoundTrip(v: nat)
    ensures HexArg(Hex04(v)) == Ok(v)
  {
    Hex04RoundTrip(v);
  }

  /** The verbs `handle_command` knows, and everything else. */
  datatype Verb = ResetVerb | StopVerb | GoVerb | ReadRegVerb | WriteRegVerb | StatusVerb | OtherVerb

  /** `args[0].upper()` compared with the verbs. */
  function VerbOf(token: string): Verb
  {
    var cmd := Upper(token);
    if cmd == "RESET" then ResetVerb
    else if cmd == "STOP" then StopVerb
    else if cmd == "GO" then GoVerb
    else if cmd == "READ_REG" then ReadRegVerb
    else if cmd == "WRITE_REG" then WriteRegVerb
    else if cmd == "STATUS" then StatusVerb
    else OtherVerb
  }

  /** How `handle_command` reads `line`: the tests of its `if` chain, in
      order. The verb is compared after `upper()`; `RESET`, `STOP`, `GO` and
      `STATUS` ignore further tokens; `READ_REG` and `WRITE_REG` need exactly
      one and two arguments; `WRITE_REG` parses both before doing anything. */
  function Parse(line: string): (r: Request)
    ensures r.Blank? <==> Tokens(line) == []
    ensures r.ReadReg? ==> && |Tokens(line)| == 2 && r.token == Tokens(line)[1]
                           && ParseHex(r.token) == Some(r.reg)
    ensures r.WriteReg? ==> && |Tokens(line)| == 3 && r.token == Tokens(line)[1]
                            && ParseHex(r.token) == Some(r.reg) && ParseHex(Tokens(line)[2]) == Some(r.val)
    ensures r.BadHex? ==> && Tokens(line) != []
                          && (VerbOf(Tokens(line)[0]) == ReadRegVerb || VerbOf(Tokens(line)[0]) == WriteRegVerb)
  {
    var args := Tokens(line);
    if args == [] then Blank
    else
      var verb := VerbOf(args[0]);
      if verb == ResetVerb then ResetCpu
      else if verb == StopVerb then Stop
      else if verb == GoVerb then Go
      else if verb == ReadRegVerb && |args| == 2 then ReadRegRequest(args[1])
      else if verb == WriteRegVerb && |args| == 3 then WriteRegRequest(args[1], args[2])
      else if verb == StatusVerb then Status
      else Malformed
  }

  /** The words a request exchanges over the link, in order: GO and
      READ_REG one, WRITE_REG two, every other request none. */
  function Words(req: Request): (w: seq<int>)
    ensures |w| <= 2
    ensures w != [] <==> req.Go? || req.ReadReg? || req.WriteReg?
    ensures |w| == 2 <==> req.WriteReg?
  {
    match req
    case Go => [CmdGo]
    case ReadReg(_, reg) => [Opcode(CmdRsreg, reg)]
    case WriteReg(_, reg, val) => [Opcode(CmdWsreg, reg), val]
    case _ => []
  }

  /** Everything a request does on the link, starting at sample `start`:
      the reset and halt sequences of the mode controller, or the exchanges
      of its words. */
  function Effect(req: Request, line: nat -> bool, start: nat): (e: seq<Event>)
    ensures Samples(e) == Window(line, start, 17 * |Words(req)|)
  {
    match req
    case ResetCpu =>
      ResetShape([], false, false, false);
      ResetEvents()
    case Stop =>
      EnterBdmOrder();
      SamplesAppend(EnterBdmEvents(), [Delay(StopSettleUs)]);
      assert [Delay(StopSettleUs)][..0] == [];
      StopEvents()
    case _ =>
      TransfersSamples(Words(req), line, start);
      Transfers(Words(req), line, start)
  }

  /** The reply line, before its `\r\n`. `frozen` is the freeze line and
      `line`, `start` the target's data line from the request's first
      exchange on, whose reply a register read reports. */
  function Response(req: Request, frozen: bool, line: nat -> bool, start: nat): (r: string)
    ensures "ERROR: " <= r <==> req.Blank? || req.Malformed? || req.BadHex? || (req.Stop? && !frozen)
  {
    // Each reply that is not an error differs from "ERROR: " in its first character.
    match req
    case Blank => "ERROR: Empty command"
    case ResetCpu => assert "OK: CPU reset"[0] == 'O'; "OK: CPU reset"
    case Stop =>
      assert "OK: CPU halted in BDM"[0] == 'O';
      if frozen then "OK: CPU halted in BDM" else "ERROR: Failed to halt CPU"
    case Go => assert "OK: CPU resumed"[0] == 'O'; "OK: CPU resumed"
    case ReadReg(token, _) =>
      var r := "REG " + token + " = 0x" + Hex04(Reply(line, start));
      assert r[0] == 'R';
      r
    case WriteReg(token, _, val) =>
      var r := "REG " + token + " <- 0x" + Hex04(val);
      assert r[0] == 'R';
      r
    case Status =>
      assert "HALTED"[0] == 'H' && "RUNNING"[0] == 'R';
      if frozen then "HALTED" else "RUNNING"
    case Malformed => "ERROR: Unknown or malformed command"
    case BadHex(message) => "ERROR: Exception " + message
  }

  /** `handle_command(cmd_line)`. Reading the line changes nothing on the
      link, and every branch of the source parses its arguments before its
      first exchange; so the line is read first and the request run after. */
  method HandleCommand(link: Link, cmdLine: string) returns (resp: string)
    requires link.Valid()
    modifies link
    ensures link.Valid()
    ensures resp == Response(Parse(cmdLine), link.freeze, link.dso, old(link.cursor))
    ensures link.trace == old(link.trace) + Effect(Parse(cmdLine), link.dso, old(link.cursor))
    ensures link.cursor == old(link.cursor) + 17 * |Words(Parse(cmdLine))|
  {
    var req := Parse(cmdLine);
    resp := Execute(link, req);
  }

  /** The branch of `handle_command` that `req` selects. */
  method Execute(link: Link, req: Request) returns (resp: string)
    requires link.Valid()
    modifies link
    ensures link.Valid()
    ensures resp == Response(req, link.freeze, link.dso, old(link.cursor))
    ensures link.trace == old(link.trace) + Effect(req, link.dso, old(link.cursor))
    ensures link.cursor == old(link.cursor) + 17 * |Words(req)|
  {
    if req.ResetCpu? || req.Stop? || req.Status? {
      resp := ExecuteMode(link, req);
    } else if req.Go? || req.ReadReg? || req.WriteReg? {
      resp := ExecuteWire(link, req);
    } else {
      resp := ExecuteError(req);
      assert old(link.trace) + [] == old(link.trace);
    }
  }

  /** The branches that work the reset and freeze lines. */
  method ExecuteMode(link: Link, req: Request) returns (resp: string)
    requires req.ResetCpu? || req.Stop? || req.Status?
    requires link.Valid()
    modifies link
    ensures link.Valid()
    ensures resp == Response(req, link.freeze, link.dso, old(link.cursor))
    ensures link.trace == old(link.trace) + Effect(req, link.dso, old(link.cursor))
    ensures link.cursor == old(link.cursor) + 17 * |Words(req)|
  {
    if req.ResetCpu? {
      CpuReset(link);
      resp := "OK: CPU reset";
    } else if req.Stop? {
      var halted := StopCpu(link);
      resp := if halted then "OK: CPU halted in BDM" else "ERROR: Failed to halt CPU";
    } else {
      var halted := CpuHalted(link);
      resp := if halted then "HALTED" else "RUNNING";
    }
  }

  /** The branches that exchange words with the target. */
  method ExecuteWire(link: Link, req: Request) returns (resp: string)
    requires req.Go? || req.ReadReg? || req.WriteReg?
    requires link.Valid()
    modifies link
    ensures link.Valid()
    ensures resp == Response(req, link.freeze, link.dso, old(link.cursor))
    ensures link.trace == old(link.trace) + Effect(req, link.dso, old(link.cursor))
    ensures link.cursor == old(link.cursor) + 17 * |Words(req)|
  {
    match req {
      case Go =>
        RunCpu(link);
        resp := "OK: CPU resumed";
      case ReadReg(token, reg) =>
        var val := ReadSysReg(link, reg);
        resp := "REG " + token + " = 0x" + Hex04(val);
      case WriteReg(token, reg, val) =>
        WriteSysReg(link, reg, val);
        resp := "REG " + token + " <- 0x" + Hex04(val);
    }
  }

  /** The branches that only answer: an empty line, a malformed one, or an
      argument that is not hexadecimal. */
  method ExecuteError(req: Request) returns (resp: string)
    requires req.Blank? || req.Malformed? || req.BadHex?
    ensures Words(req) == [] && forall line, start :: Effect(req, line, start) == []
    ensures forall frozen, line, start :: resp == Response(req, frozen, line, start)
  {
    match req {
      case Blank => resp := "ERROR: Empty command";
      case Malformed => resp := "ERROR: Unknown or malformed command";
      case BadHex(message) => resp := "ERROR: Exception " + message;
    }
  }

  /** `READ_REG arg`: the register, or the failure to parse it. */
  function ReadRegRequest(arg: string): (r: Request)
    ensures r.ReadReg? || r.BadHex?
    ensures r.ReadReg? <==> ParseHex(arg).Some?
    ensures r.ReadReg? ==> r.token == arg && ParseHex(arg) == Some(r.reg)
    ensures r.BadHex? ==> r.message == IntParseError(arg)
  {
    match HexArg(arg)
    case Err(m) => BadHex(m)
    case Ok(reg) => ReadReg(arg, reg)
  }

  /** `WRITE_REG regArg valArg`: both arguments are parsed, the register
      first, before anything is sent. */
  function WriteRegRequest(regArg: string, valArg: string): (r: Request)
    ensures r.WriteReg? || r.BadHex?
    ensures r.WriteReg? <==> ParseHex(regArg).Some? && ParseHex(valArg).Some?
    ensures r.WriteReg? ==> && r.token == regArg && ParseHex(regArg) == Some(r.reg)
                            && ParseHex(valArg) == Some(r.val)
    ensures r.BadHex? ==> r.message == IntParseError(if ParseHex(regArg).None? then regArg else valArg)
  {
    match HexArg(regArg)
    case Err(m) => BadHex(m)
    case Ok(reg) =>
      match HexArg(valArg)
      case Err(m) => BadHex(m)
      case Ok(val) => WriteReg(regArg, reg, val)
  }

  // ---------------------------------------------------------------------
  // Properties of the dispatcher

  /** A line gets "ERROR: Empty command" exactly when it is all whitespace. */
  lemma BlankIff(line: string)
    ensures Parse(line) == Blank <==> forall i :: 0 <= i < |line| ==> IsSpace(line[i])
  {
    TokensEmptyIff(line);
  }

  /** Only the tokens of a line matter, and of its first token only its
      upper-case form: `handle_command` reads the verb case-insensitively. */
  lemma ParseByTokens(line: string, other: string)
    requires |Tokens(line)| == |Tokens(other)|
    requires Tokens(line) != [] ==> Upper(Tokens(line)[0]) == Upper(Tokens(other)[0])
    requires Tokens(line) != [] ==> Tokens(line)[1..] == Tokens(other)[1..]
    ensures Parse(line) == Parse(other)
  {
    var a, b := Tokens(line), Tokens(other);
    if |a| >= 2 {
      assert a[1] == a[1..][0] && b[1] == b[1..][0];
    }
    if |a| >= 3 {
      assert a[2] == a[1..][1] && b[2] == b[1..][1];
    }
  }

  /** A line is malformed exactly when it has a verb that is none of the
      six, or it is `READ_REG` without exactly one argument, or `WRITE_REG`
      without exactly two. */
  lemma MalformedIff(line: string)
    ensures Parse(line) == Malformed <==>
      var args := Tokens(line);
      && args != []
      && (|| VerbOf(args[0]) == OtherVerb
          || (VerbOf(args[0]) == ReadRegVerb && |args| != 2)
          || (VerbOf(args[0]) == WriteRegVerb && |args| != 3))
  {
  }

  /** A token names a verb exactly when it spells the verb's name with its
      letters in any case. */
  lemma VerbNames(token: string)
    ensures VerbOf(token) == ResetVerb <==> SpellsUpper(token, "RESET")
    ensures VerbOf(token) == StopVerb <==> SpellsUpper(token, "STOP")
    ensures VerbOf(token) == GoVerb <==> SpellsUpper(token, "GO")
    ensures VerbOf(token) == ReadRegVerb <==> SpellsUpper(token, "READ_REG")
    ensures VerbOf(token) == WriteRegVerb <==> SpellsUpper(token, "WRITE_REG")
    ensures VerbOf(token) == StatusVerb <==> SpellsUpper(token, "STATUS")
  {
    UpperSpells(token, "RESET");
    UpperSpells(token, "STOP");
    UpperSpells(token, "GO");
    UpperSpells(token, "READ_REG");
    UpperSpells(token, "WRITE_REG");
    UpperSpells(token, "STATUS");
  }

  /** `STATUS` (with any further tokens) touches no line of the link and
      answers "HALTED" exactly when the freeze line is high, "RUNNING"
      otherwise. */
  lemma StatusReply(line: string, frozen: bool, dso: nat -> bool, start: nat)
    requires Tokens(line) != [] && VerbOf(Tokens(line)[0]) == StatusVerb
    ensures Parse(line) == Status
    ensures Effect(Parse(line), dso, start) == [] && Words(Parse(line)) == []
    ensures Response(Parse(line), frozen, dso, start) == "HALTED" <==> frozen
    ensures Response(Parse(line), frozen, dso, start) == "RUNNING" <==> !frozen
  {
  }

  /** `WRITE_REG` parses both arguments before it sends anything: when
      either is not hexadecimal the reply is the exception of the first
      that fails, and nothing at all happens on the link. */
  lemma WriteRegParseFailure(line: string, frozen: bool, dso: nat -> bool, start: nat)
    requires |Tokens(line)| == 3 && VerbOf(Tokens(line)[0]) == WriteRegVerb
    requires ParseHex(Tokens(line)[1]).None? || ParseHex(Tokens(line)[2]).None?
    ensures Words(Parse(line)) == [] && Effect(Parse(line), dso, start) == []
    ensures Response(Parse(line), frozen, dso, start) == "ERROR: Exception " +
      IntParseError(if ParseHex(Tokens(line)[1]).None? then Tokens(line)[1] else Tokens(line)[2])
  {
  }

  /** `READ_REG` echoes its register token exactly as typed and reports the
      reply to its one exchange, the opcode for that register, as four
      upper-case hexadecimal digits that read back as the reply. */
  lemma ReadRegReply(line: string, frozen: bool, dso: nat -> bool, start: nat)
    requires Parse(line).ReadReg?
    ensures |Tokens(line)| == 2 && VerbOf(Tokens(line)[0]) == ReadRegVerb
    ensures Parse(line).token == Tokens(line)[1] && ParseHex(Tokens(line)[1]) == Some(Parse(line).reg)
    ensures Words(Parse(line)) == [Opcode(CmdRsreg, Parse(line).reg)]
    ensures 0x6000 <= Opcode(CmdRsreg, Parse(line).reg) <= 0x603F
    ensures var r, head := Response(Parse(line), frozen, dso, start), "REG " + Tokens(line)[1] + " = 0x";
      && |r| == |head| + 4 && r[..|head|] == head
      && (forall i :: |head| <= i < |r| ==> IsUpperHexDigit(r[i]))
      && ParseHex(r[|head|..]) == Some(Reply(dso, start))
  {
    var req := Parse(line);
    var w := Reply(dso, start);
    OpcodeRanges(req.reg);
    Hex04Shape(w);
    Hex04RoundTrip(w);
    var r, head := Response(req, frozen, dso, start), "REG " + Tokens(line)[1] + " = 0x";
    assert r == head + Hex04(w);
    assert r[..|head|] == head && r[|head|..] == Hex04(w);
  }

  /** `WRITE_REG` echoes the value as parsed, all of its digits, while only
      its low 16 bits reach the wire: the second exchange carries
      `val mod 2^16`, and the echo is longer than four digits exactly when
      the value does not fit in 16 bits. */
  lemma WriteRegEcho(line: string, frozen: bool, dso: nat -> bool, start: nat)
    requires Parse(line).WriteReg?
    ensures var req := Parse(line);
      && Response(req, frozen, dso, start) == "REG " + Tokens(line)[1] + " <- 0x" + Hex04(req.val)
      && ParseHex(Hex04(req.val)) == Some(req.val)
      && (|Hex04(req.val)| == 4 <==> req.val < 0x10000)
    ensures var req := Parse(line);
      && Words(req) == [Opcode(CmdWsreg, req.reg), req.val]
      && 0x7000 <= Opcode(CmdWsreg, req.reg) <= 0x703F
      && Effect(req, dso, start) == Transfer(Opcode(CmdWsreg, req.reg), dso, start) + Transfer(req.val, dso, start + 17)
      && Writes(Transfer(req.val, dso, start + 17), Dsi) == WireBits(req.val % 0x10000)
      && Pack(WireBits(req.val)) == req.val % 0x10000
  {
    var req := Parse(line);
    Hex04RoundTrip(req.val);
    Hex04Shape(req.val);
    WriteRegWire(req.reg, req.val, dso, start);
  }

  lemma WriteRegWire(reg: nat, val: nat, dso: nat -> bool, start: nat)
    ensures 0x7000 <= Opcode(CmdWsreg, reg) <= 0x703F
    ensures Transfers([Opcode(CmdWsreg, reg), val], dso, start)
         == Transfer(Opcode(CmdWsreg, reg), dso, start) + Transfer(val, dso, start + 17)
    ensures Writes(Transfer(val, dso, start + 17), Dsi) == WireBits(val % 0x10000)
    ensures Pack(WireBits(val)) == val % 0x10000
  {
    OpcodeRanges(reg);
    TransfersTwo(Opcode(CmdWsreg, reg), val, dso, start);
    TransferShape(val, dso, start + 17);
    WireBitsValue(val);
  }

  // ---------------------------------------------------------------------
  // Writing a request as a command line

  /** The requests a host can type: register tokens are single words that
      parse to the register they name. */
  predicate Typeable(req: Request)
  {
    match req
    case ReadReg(token, reg) => IsWord(token) && ParseHex(token) == Some(reg)
    case WriteReg(token, reg, _) => IsWord(token) && ParseHex(token) == Some(reg)
    case Malformed => false
    case BadHex(_) => false
    case _ => true
  }

  /** The canonical line for `req`: verb and arguments joined by single
      spaces, the value of a write as four or more upper-case hexadecimal
      digits. A user may type the same request with other spacing, other
      letter case in the verb and another spelling of the value; see
      `ParseSpaced`, `ParseByTokens` and `ParseWriteRegLine`. */
  function CommandLine(req: Request): string
    requires Typeable(req)
  {
    match req
    case Blank => ""
    case ResetCpu => "RESET"
    case Stop => "STOP"
    case Go => "GO"
    case Status => "STATUS"
    case ReadReg(token, _) => Join(["READ_REG", token])
    case WriteReg(token, _, val) => Join(["WRITE_REG", token, Hex04(val)])
  }

  /** Reading back the line written for a request gives the request. */
  lemma ParseCommandLine(req: Request)
    requires Typeable(req)
    ensures Parse(CommandLine(req)) == req
  {
    match req {
      case Blank =>
      case ResetCpu => ParseVerbLine("RESET", ResetVerb);
      case Stop => ParseVerbLine("STOP", StopVerb);
      case Go => ParseVerbLine("GO", GoVerb);
      case Status => ParseVerbLine("STATUS", StatusVerb);
      case ReadReg(token, reg) => ParseReadRegLine(token, reg);
      case WriteReg(token, reg, val) =>
        Hex04Shape(val);
        Hex04RoundTrip(val);
        assert IsWord(Hex04(val)) by {
          forall i | 0 <= i < |Hex04(val)| ensures !IsSpace(Hex04(val)[i]) {
            assert IsUpperHexDigit(Hex04(val)[i]);
          }
        }
        ParseWriteRegLine(token, reg, Hex04(val), val);
    }
  }

  /** However the words of a line are spaced, with any whitespace before,
      between and after them, the line means what the words joined by
      single spaces mean. */
  lemma ParseSpaced(ts: seq<string>, seps: seq<string>)
    requires forall k :: 0 <= k < |ts| ==> IsWord(ts[k])
    requires |seps| == |ts| + 1 && Separators(seps)
    ensures Parse(Spaced(ts, seps)) == Parse(Join(ts))
  {
    TokensSpaced(ts, seps);
    TokensJoin(ts);
    ParseByTokens(Spaced(ts, seps), Join(ts));
  }

  lemma ParseVerbLine(verb: string, v: Verb)
    requires verb != [] && forall i :: 0 <= i < |verb| ==> 'A' <= verb[i] <= 'Z' || verb[i] == '_'
    requires VerbOf(verb) == v && (v == ResetVerb || v == StopVerb || v == GoVerb || v == StatusVerb)
    ensures Parse(verb) == match v
      case ResetVerb => ResetCpu
      case StopVerb => Stop
      case GoVerb => Go
      case _ => Status
  {
    VerbLine(verb);
  }

  lemma ParseReadRegLine(token: string, reg: nat)
    requires IsWord(token) && ParseHex(token) == Some(reg)
    ensures Parse(Join(["READ_REG", token])) == ReadReg(token, reg)
  {
    var args := ["READ_REG", token];
    VerbWord("READ_REG");
    VerbNames("READ_REG");
    TokensJoin(args);
    assert VerbOf(args[0]) == ReadRegVerb;
  }

  /** A register write with any hexadecimal spelling of its value, such as
      lower-case digits or no leading zeros, writes that value. */
  lemma ParseWriteRegLine(token: string, reg: nat, valToken: string, val: nat)
    requires IsWord(token) && ParseHex(token) == Some(reg)
    requires IsWord(valToken) && ParseHex(valToken) == Some(val)
    ensures Parse(Join(["WRITE_REG", token, valToken])) == WriteReg(token, reg, val)
  {
    var args := ["WRITE_REG", token, valToken];
    VerbWord("WRITE_REG");
    VerbNames("WRITE_REG");
    TokensJoin(args);
    assert VerbOf(args[0]) == WriteRegVerb;
  }

  /** A verb is a word that `upper()` leaves as it is. */
  lemma VerbWord(verb: string)
    requires verb != [] && forall i :: 0 <= i < |verb| ==> 'A' <= verb[i] <= 'Z' || verb[i] == '_'
    ensures IsWord(verb) && Upper(verb) == verb
  {
  }

  /** A line of just a verb splits into that verb. */
  lemma VerbLine(verb: string)
    requires verb != [] && forall i :: 0 <= i < |verb| ==> 'A' <= verb[i] <= 'Z' || verb[i] == '_'
    ensures Tokens(verb) == [verb] && Upper(verb) == verb
  {
    VerbWord(verb);
    TokensJoin([verb]);
  }
}
