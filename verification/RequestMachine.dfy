/** The request parser of a client connection, one byte at a time (src/RequestParser.cpp).
    It recognises an array of bulk strings and cuts a command with several keys into parts. */
module RequestMachine {
  import opened Bytes
  import opened Resp

  const MAX_CMD_LEN := 32

  /** Where a command keeps its keys: the `KeyMask` bits of its mode. */
  datatype KeyMode = FirstKey | NoKey | MultiKey | SMultiKey | MultiKeyVal | KeyAt2 | KeyAt3

  /** An entry of the command table. `pairs` marks mset and msetnx. */
  datatype Command = Command(minArgs: int, maxArgs: int, keys: KeyMode, pairs: bool)

  type CommandTable = map<string, Command>

  /** `Command::None`: what an unknown name is treated as. */
  const NoCommand := Command(0, 100000000, FirstKey, false)

  datatype Outcome = Normal | Partial | Complete | CmdError | ArgError | ParseError

  /** The three runs of states that read an argument: KeyTag.. for the first argument of an
      ordinary command, ArgTag.. for its others, SArgTag.. for all arguments of a command with a key mode. */
  datatype Lane = Key | Plain | Multi

  datatype Phase = Tag | Len | LenLF | Body | BodyLF

  datatype State =
    | Idle | ArgNum | ArgNumLF
    | CmdTag | CmdLen | CmdLenLF | CmdBody | CmdBodyLF
    | Arg(lane: Lane, phase: Phase)
    | Finished

  /** One request handed to the connection: its bytes and its key, as offsets in the stream. */
  datatype Part = Part(status: Outcome, reqBegin: nat, reqEnd: nat, keyBegin: nat, keyEnd: nat)

  datatype Snapshot =
    | Failed(out: seq<Part>)
    | Unmodelled(out: seq<Part>)   // inline commands and over-long command names
    | At(
        state: State, argNum: nat, argCnt: nat, argLen: nat, bodyCnt: nat,
        cmd: string, command: Command, status: Outcome,
        reqBegin: nat, keyBegin: nat, keyEnd: nat,
        at: nat, out: seq<Part>)
  {
    function To(s: State): Snapshot requires At? { this.(state := s) }
  }

  function Fresh(at: nat, out: seq<Part>): Snapshot {
    At(Idle, 0, 0, 0, 0, [], NoCommand, Normal, 0, 0, 0, at, out)
  }

  function ToLower(c: char): char {
    if 'A' <= c <= 'Z' then c - 'A' + 'a' else c
  }

  function Lower(s: string): (r: string)
    ensures |r| == |s|
  {
    if s == [] then [] else [ToLower(s[0])] + Lower(s[1..])
  }

  /** `isKey` */
  predicate IsKey(keys: KeyMode, argCnt: int, split: bool) {
    match keys
    case NoKey => false
    case MultiKey => if split then argCnt > 0 else argCnt == 1
    case SMultiKey => argCnt > 0
    case MultiKeyVal => if split then argCnt % 2 == 1 else argCnt == 1
    case KeyAt2 => argCnt == 2
    case KeyAt3 => argCnt == 3
    case FirstKey => argCnt == 1
  }

  /** `isSplit` */
  predicate IsSplit(keys: KeyMode, argNum: int, argCnt: int, status: Outcome, split: bool) {
    match keys
    case MultiKey => split && status == Normal && argNum > 2 && IsKey(keys, argCnt, true)
    case MultiKeyVal => split && status == Normal && argNum > 3 && IsKey(keys, argCnt, true)
    case SMultiKey => status == Normal && argNum > 2
    case _ => false
  }

  predicate IsKeyArg(p: Snapshot, lane: Lane, split: bool)
    requires p.At?
  {
    match lane
    case Key => true
    case Plain => false
    case Multi => IsKey(p.command.keys, p.argCnt, split)
  }

  /** `parseCmd` once the whole name is known; it is looked up as a string, and so up to a zero byte. */
  function Lookup(p: Snapshot, table: CommandTable): (q: Snapshot)
    requires p.At?
    ensures q.At? && q == p.(command := q.command, status := q.status)
  {
    if CString(p.cmd) !in table then p.(command := NoCommand, status := CmdError) else
    var c := table[CString(p.cmd)];
    p.(command := c,
       status := if p.argNum < c.minArgs || p.argNum > c.maxArgs || (c.pairs && p.argNum % 2 == 0)
                 then ArgError else p.status)
  }

  /** The exit at `Done`: hands over the request that ends with the byte just read. */
  function Emit(p: Snapshot): Snapshot
    requires p.At?
  {
    var status := if p.state != Finished then Partial else if p.status == Normal then Complete else p.status;
    p.(out := p.out + [Part(status, p.reqBegin, p.at, p.keyBegin, p.keyEnd)])
  }

  /** An argument has been read to its last byte. */
  function ArgDone(p: Snapshot, lane: Lane, split: bool): Snapshot
    requires p.At?
  {
    var q := p.(argCnt := p.argCnt + 1);
    if q.argCnt == q.argNum then Emit(q.To(Finished)) else
    var r := q.To(Arg(if lane == Multi then Multi else Plain, Tag));
    if lane == Multi && IsSplit(r.command.keys, r.argNum, r.argCnt, r.status, split) then Emit(r) else r
  }

  /** The name has been read to its last byte. */
  function NameDone(p: Snapshot, table: CommandTable): Snapshot
    requires p.At?
  {
    var named := Lookup(p, table);
    var q := named.(argCnt := p.argCnt + 1);
    if q.argCnt == q.argNum then Emit(q.To(Finished))
    else q.To(Arg(if q.command.keys == FirstKey then Key else Multi, Tag))
  }

  /** In the steps below `p.at` is already behind `ch`, so the offset of `ch` is `p.at - 1`. */
  function StepCmd(p: Snapshot, ch: char, table: CommandTable): Snapshot
    requires p.At? && p.at > 0
  {
    match p.state
    case CmdTag => if ch == '$' then p.(argLen := 0, state := CmdLen) else Failed(p.out)
    case CmdLen =>
      if IsDigit(ch) then p.(argLen := p.argLen * 10 + DigitValue(ch))
      else if ch == '\r' && p.argLen > 0 then p.To(CmdLenLF)
      else Failed(p.out)
    case CmdLenLF =>
      if ch != '\n' then Failed(p.out)
      else if p.argLen < MAX_CMD_LEN then p.(bodyCnt := 0, cmd := [], state := CmdBody)
      else Unmodelled(p.out)
    case CmdBody =>
      if p.bodyCnt < p.argLen then p.(bodyCnt := p.bodyCnt + 1, cmd := p.cmd + [ToLower(ch)])
      else if ch == '\r' then p.(bodyCnt := 0, state := CmdBodyLF)
      else Failed(p.out)
    case _ => if ch == '\n' then NameDone(p, table) else Failed(p.out)
  }

  function StepBody(p: Snapshot, ch: char, lane: Lane, split: bool): Snapshot
    requires p.At? && p.at > 0
  {
    var q := if p.bodyCnt == 0 && IsKeyArg(p, lane, split) then p.(keyBegin := p.at - 1) else p;
    if q.bodyCnt < q.argLen then q.(bodyCnt := q.bodyCnt + 1)
    else if ch == '\r' then
      q.(bodyCnt := 0, state := Arg(lane, BodyLF), keyEnd := if IsKeyArg(q, lane, split) then q.at - 1 else q.keyEnd)
    else Failed(q.out)
  }

  function StepArg(p: Snapshot, ch: char, lane: Lane, phase: Phase, split: bool): Snapshot
    requires p.At? && p.at > 0
  {
    match phase
    case Tag =>
      if ch != '$' then Failed(p.out) else
      p.(argLen := 0, state := Arg(lane, Len),
         reqBegin := if lane == Multi && IsSplit(p.command.keys, p.argNum, p.argCnt, p.status, split)
                     then p.at - 1 else p.reqBegin)
    case Len =>
      if IsDigit(ch) then p.(argLen := p.argLen * 10 + DigitValue(ch))
      else if ch == '\r' then p.To(Arg(lane, LenLF))
      else Failed(p.out)
    case LenLF => if ch == '\n' then p.(bodyCnt := 0, state := Arg(lane, Body)) else Failed(p.out)
    case Body => StepBody(p, ch, lane, split)
    case BodyLF => if ch == '\n' then ArgDone(p, lane, split) else Failed(p.out)
  }

  function StepOver(p: Snapshot): (q: Snapshot)
    requires p.At?
    ensures q.At? && q.at == p.at + 1
  {
    if p.state == Finished then Fresh(p.at + 1, p.out) else p.(at := p.at + 1)
  }

  /** One byte. A finished parser is reset by the connection before it reads on. */
  function Step(p0: Snapshot, ch: char, table: CommandTable, split: bool): Snapshot {
    if !p0.At? then p0 else
    var p := StepOver(p0);
    match p.state
    case Idle =>
      if ch == '*' then p.(argNum := 0, reqBegin := p.at - 1, state := ArgNum) else Unmodelled(p.out)
    case ArgNum =>
      if IsDigit(ch) then p.(argNum := p.argNum * 10 + DigitValue(ch))
      else if ch == '\r' && p.argNum > 0 then p.To(ArgNumLF)
      else Failed(p.out)
    case ArgNumLF => if ch == '\n' then p.(argCnt := 0, state := CmdTag) else Failed(p.out)
    case Arg(lane, phase) => StepArg(p, ch, lane, phase, split)
    case _ => StepCmd(p, ch, table)
  }

  function Run(p: Snapshot, s: string, table: CommandTable, split: bool): Snapshot
    decreases |s|
  {
    if s == [] then p else Run(Step(p, s[0], table, split), s[1..], table, split)
  }

  /** Cutting the stream anywhere changes nothing: neither the state nor the requests handed over. */
  lemma {:induction false} RunConcat(p: Snapshot, s: string, t: string, table: CommandTable, split: bool)
    ensures Run(p, s + t, table, split) == Run(Run(p, s, table, split), t, table, split)
    decreases |s|
  {
    hide Step;
    if s == [] {
      assert s + t == t;
    } else {
      RunConcat(Step(p, s[0], table, split), s[1..], t, table, split);
      assert (s + t)[1..] == s[1..] + t;
    }
  }

  lemma {:induction false} RunThree(p: Snapshot, a: string, b: string, c: string, table: CommandTable, split: bool)
    ensures Run(p, a + b + c, table, split)
         == Run(Run(Run(p, a, table, split), b, table, split), c, table, split)
  {
    hide Run;
    RunConcat(p, a + b, c, table, split);
    RunConcat(p, a, b, table, split);
  }

  lemma {:induction false} RunOne(p: Snapshot, c: char, table: CommandTable, split: bool)
    ensures Run(p, [c], table, split) == Step(p, c, table, split)
  {
    hide Step;
  }

  lemma {:induction false} RunCRLF(p: Snapshot, table: CommandTable, split: bool)
    ensures Run(p, CRLF, table, split) == Step(Step(p, '\r', table, split), '\n', table, split)
  {
    hide Step;
    assert CRLF == ['\r'] + ['\n'];
    RunConcat(p, ['\r'], ['\n'], table, split);
    RunOne(p, '\r', table, split);
    RunOne(Step(p, '\r', table, split), '\n', table, split);
  }

  // ----- numbers and bodies -----

  lemma {:induction false} RunLenDigits(p: Snapshot, s: string, table: CommandTable, split: bool)
    requires p.At? && (p.state == CmdLen || (p.state.Arg? && p.state.phase == Len)) && AllDigits(s)
    ensures Accumulate(p.argLen, s) >= 0
    ensures Run(p, s, table, split) == p.(argLen := Accumulate(p.argLen, s), at := p.at + |s|)
    decreases |s|
  {
    if s != [] { RunLenDigits(Step(p, s[0], table, split), s[1..], table, split); }
  }

  lemma {:induction false} RunNumDigits(p: Snapshot, s: string, table: CommandTable, split: bool)
    requires p.At? && p.state == ArgNum && AllDigits(s)
    ensures Accumulate(p.argNum, s) >= 0
    ensures Run(p, s, table, split) == p.(argNum := Accumulate(p.argNum, s), at := p.at + |s|)
    decreases |s|
  {
    if s != [] { RunNumDigits(Step(p, s[0], table, split), s[1..], table, split); }
  }

  lemma {:induction false} LowerEmpty(c: string)
    ensures c + Lower([]) == c
  {
  }

  lemma {:induction false} LowerCons(c: string, s: string)
    requires s != []
    ensures (c + [ToLower(s[0])]) + Lower(s[1..]) == c + Lower(s)
  {
    hide ToLower;
    assert Lower(s) == [ToLower(s[0])] + Lower(s[1..]);
  }

  lemma {:induction false} RunCmdBody(p: Snapshot, s: string, table: CommandTable, split: bool)
    requires p.At? && p.state == CmdBody && p.bodyCnt + |s| <= p.argLen
    ensures Run(p, s, table, split) == p.(bodyCnt := p.bodyCnt + |s|, cmd := p.cmd + Lower(s), at := p.at + |s|)
    decreases |s|
  {
    hide ToLower, StepArg, Lower;
    if s == [] {
      LowerEmpty(p.cmd);
    } else {
      var q := p.(bodyCnt := p.bodyCnt + 1, cmd := p.cmd + [ToLower(s[0])], at := p.at + 1);
      assert Step(p, s[0], table, split) == q;
      hide Step;
      RunCmdBody(q, s[1..], table, split);
      LowerCons(p.cmd, s);
    }
  }

  /** Bytes of an argument's body: the key starts at the first of them. */
  lemma {:induction false} RunArgBody(p: Snapshot, s: string, table: CommandTable, split: bool)
    requires p.At? && p.state.Arg? && p.state.phase == Body && p.bodyCnt + |s| <= p.argLen && s != []
    ensures Run(p, s, table, split)
         == p.(bodyCnt := p.bodyCnt + |s|, at := p.at + |s|,
               keyBegin := if p.bodyCnt == 0 && IsKeyArg(p, p.state.lane, split) then p.at else p.keyBegin)
    decreases |s|
  {
    var q := Step(p, s[0], table, split);
    if |s| == 1 {
      RunOne(p, s[0], table, split);
      assert s == [s[0]];
    } else {
      RunArgBody(q, s[1..], table, split);
    }
  }

  // ----- one argument -----

  function HeadSize(arg: string): nat {
    1 + |Decimal(|arg|)| + 2
  }

  lemma {:induction false} BulkSize(arg: string)
    ensures |EncodeBulk(arg)| == HeadSize(arg) + |arg| + 2
  {
  }

  /** What reading the whole of one argument does. */
  function AfterArg(p: Snapshot, lane: Lane, arg: string, split: bool): Snapshot
    requires p.At?
  {
    var key := IsKeyArg(p, lane, split);
    var body := p.at + HeadSize(arg);
    ArgDone(
      p.(argLen := |arg|, bodyCnt := 0, state := Arg(lane, BodyLF), at := p.at + |EncodeBulk(arg)|,
         reqBegin := if lane == Multi && IsSplit(p.command.keys, p.argNum, p.argCnt, p.status, split)
                     then p.at else p.reqBegin,
         keyBegin := if key then body else p.keyBegin,
         keyEnd := if key then body + |arg| else p.keyEnd),
      lane, split)
  }

  lemma {:induction false} RunArgHead(p: Snapshot, arg: string, table: CommandTable, split: bool)
    requires p.At? && p.state.Arg? && p.state.phase == Tag
    ensures Run(p, "$" + Decimal(|arg|) + CRLF, table, split)
         == p.(argLen := |arg|, bodyCnt := 0, state := Arg(p.state.lane, Body), at := p.at + HeadSize(arg),
               reqBegin := if p.state.lane == Multi && IsSplit(p.command.keys, p.argNum, p.argCnt, p.status, split)
                           then p.at else p.reqBegin)
  {
    var q := Step(p, '$', table, split);
    var r := Run(q, Decimal(|arg|), table, split);
    RunThree(p, "$", Decimal(|arg|), CRLF, table, split);
    RunOne(p, '$', table, split);
    RunLenDigits(q, Decimal(|arg|), table, split);
    DecimalRoundTrip(|arg|);
    RunCRLF(r, table, split);
  }

  /** The line end behind the body of an argument. */
  lemma {:induction false} ArgLineEnd(p: Snapshot, table: CommandTable, split: bool)
    requires p.At? && p.state.Arg? && p.state.phase == Body && p.bodyCnt == p.argLen
    ensures var (lane, key) := (p.state.lane, IsKeyArg(p, p.state.lane, split));
            Step(Step(p, '\r', table, split), '\n', table, split)
            == ArgDone(p.(bodyCnt := 0, state := Arg(lane, BodyLF), at := p.at + 2,
                          keyBegin := if p.bodyCnt == 0 && key then p.at else p.keyBegin,
                          keyEnd := if key then p.at else p.keyEnd), lane, split)
  {
    hide IsKey, ArgDone, StepCmd;
  }

  lemma {:induction false} RunArg(p: Snapshot, arg: string, table: CommandTable, split: bool)
    requires p.At? && p.state.Arg? && p.state.phase == Tag
    ensures Run(p, EncodeBulk(arg), table, split) == AfterArg(p, p.state.lane, arg, split)
  {
    hide Run, Step, IsKey, IsSplit, ArgDone;
    var head := "$" + Decimal(|arg|) + CRLF;
    var q := Run(p, head, table, split);
    RunThree(p, head, arg, CRLF, table, split);
    RunArgHead(p, arg, table, split);
    if arg == [] {
      RunEmpty(q, table, split);
    } else {
      RunArgBody(q, arg, table, split);
    }
    RunCRLF(Run(q, arg, table, split), table, split);
    ArgLineEnd(Run(q, arg, table, split), table, split);
    BulkSize(arg);
  }

  lemma {:induction false} RunEmpty(p: Snapshot, table: CommandTable, split: bool)
    ensures Run(p, [], table, split) == p
  {
  }

  // ----- all arguments -----

  /** The arguments of a command one after the other. */
  function AfterArgs(p: Snapshot, args: seq<string>, split: bool): Snapshot
    decreases |args|
  {
    if args == [] || !p.At? || !p.state.Arg? then p
    else AfterArgs(AfterArg(p, p.state.lane, args[0], split), args[1..], split)
  }

  predicate AtTag(p: Snapshot, argNum: nat, argCnt: nat) {
    p.At? && p.state.Arg? && p.state.phase == Tag && p.argNum == argNum && p.argCnt == argCnt && argCnt < argNum
  }

  lemma {:induction false} RunArgs(p: Snapshot, args: seq<string>, n: nat, i: nat, table: CommandTable, split: bool)
    requires AtTag(p, n, i) && i + |args| <= n
    ensures Run(p, EncodeBulks(args), table, split) == AfterArgs(p, args, split)
    ensures var q := AfterArgs(p, args, split);
            if i + |args| == n then q.At? && q.state == Finished else AtTag(q, n, i + |args|)
    decreases |args|
  {
    hide EncodeBulk, IsKey, IsSplit, Step;
    if args != [] {
      var q := AfterArg(p, p.state.lane, args[0], split);
      RunConcat(p, EncodeBulk(args[0]), EncodeBulks(args[1..]), table, split);
      RunArg(p, args[0], table, split);
      if i + 1 < n {
        RunArgs(q, args[1..], n, i + 1, table, split);
      } else {
        assert args[1..] == [];
      }
    }
  }

  /** The parser after the command's name, when the command has `n` strings in all. */
  function AfterName(p: Snapshot, n: nat, name: string, table: CommandTable): Snapshot
    requires p.At?
  {
    var named := Lookup(p.(argNum := n, argLen := |name|, bodyCnt := 0, cmd := Lower(name), reqBegin := p.at,
                           at := p.at + |CommandHead(n)| + |EncodeBulk(name)|, state := CmdBodyLF), table);
    var q := named.(argCnt := 1);
    if n == 1 then Emit(q.To(Finished)) else q.To(Arg(if q.command.keys == FirstKey then Key else Multi, Tag))
  }

  /** `*n` and the line end. */
  function CommandHead(n: nat): string {
    "*" + Decimal(n) + CRLF
  }

  lemma {:induction false} RunCommandHead(o: nat, out: seq<Part>, n: nat, table: CommandTable, split: bool)
    requires n > 0
    ensures Run(Fresh(o, out), CommandHead(n), table, split)
         == Fresh(o, out).(argNum := n, reqBegin := o, at := o + |CommandHead(n)|, state := CmdTag)
  {
    var p := Fresh(o, out);
    var q := Step(p, '*', table, split);
    RunThree(p, "*", Decimal(n), CRLF, table, split);
    RunOne(p, '*', table, split);
    RunNumDigits(q, Decimal(n), table, split);
    DecimalRoundTrip(n);
    RunCRLF(Run(q, Decimal(n), table, split), table, split);
  }

  lemma {:induction false} RunNameHead(p: Snapshot, name: string, table: CommandTable, split: bool)
    requires p.At? && p.state == CmdTag && 0 < |name| < MAX_CMD_LEN
    ensures Run(p, "$" + Decimal(|name|) + CRLF, table, split)
         == p.(argLen := |name|, bodyCnt := 0, cmd := [], at := p.at + HeadSize(name), state := CmdBody)
  {
    var q := Step(p, '$', table, split);
    RunThree(p, "$", Decimal(|name|), CRLF, table, split);
    RunOne(p, '$', table, split);
    RunLenDigits(q, Decimal(|name|), table, split);
    DecimalRoundTrip(|name|);
    RunCRLF(Run(q, Decimal(|name|), table, split), table, split);
  }

  /** The line end behind the name. */
  lemma {:induction false} NameLineEnd(p: Snapshot, table: CommandTable, split: bool)
    requires p.At? && p.state == CmdBody && p.bodyCnt == p.argLen
    ensures Step(Step(p, '\r', table, split), '\n', table, split)
         == NameDone(p.(bodyCnt := 0, state := CmdBodyLF, at := p.at + 2), table)
  {
    hide NameDone, StepArg;
  }

  lemma {:induction false} RunName(o: nat, out: seq<Part>, n: nat, name: string, table: CommandTable, split: bool)
    requires n > 0 && 0 < |name| < MAX_CMD_LEN
    ensures Run(Fresh(o, out), CommandHead(n) + EncodeBulk(name), table, split)
         == AfterName(Fresh(o, out), n, name, table)
  {
    hide Run, Step, CommandHead, Lookup, Emit;
    var p := Fresh(o, out);
    RunConcat(p, CommandHead(n), EncodeBulk(name), table, split);
    RunCommandHead(o, out, n, table, split);
    var q := Run(p, CommandHead(n), table, split);
    var head := "$" + Decimal(|name|) + CRLF;
    RunThree(q, head, name, CRLF, table, split);
    RunNameHead(q, name, table, split);
    RunCmdBody(Run(q, head, table, split), name, table, split);
    assert [] + Lower(name) == Lower(name);
    RunCRLF(Run(Run(q, head, table, split), name, table, split), table, split);
    NameLineEnd(Run(Run(q, head, table, split), name, table, split), table, split);
    BulkSize(name);
  }

  /** A whole command, as a fold over its arguments. */
  lemma {:induction false} RunCommand(o: nat, out: seq<Part>, args: seq<string>, table: CommandTable, split: bool)
    requires args != [] && 0 < |args[0]| < MAX_CMD_LEN
    ensures var p := Fresh(o, out);
            Run(p, EncodeCommand(args), table, split)
            == AfterArgs(AfterName(p, |args|, args[0], table), args[1..], split)
  {
    hide Run, EncodeBulk;
    var p := Fresh(o, out);
    var head := CommandHead(|args|) + EncodeBulk(args[0]);
    assert EncodeCommand(args) == head + EncodeBulks(args[1..]);
    RunConcat(p, head, EncodeBulks(args[1..]), table, split);
    RunName(o, out, |args|, args[0], table, split);
    if |args| > 1 {
      RunArgs(AfterName(p, |args|, args[0], table), args[1..], |args|, 1, table, split);
    } else {
      assert EncodeBulks(args[1..]) == [];
      RunEmpty(AfterName(p, |args|, args[0], table), table, split);
    }
  }
}
