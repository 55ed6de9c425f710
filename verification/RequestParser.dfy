/** The resumable request parser of a client connection as an object (src/RequestParser.cpp). */
module RequestParsing {
  import opened Bytes
  import opened RequestMachine

  const MAX_ALLOW_INVALID_BYTE_COUNT := 1024

  /** What one turn of the loop leads to. */
  datatype Verdict = GoOn | Emitted | Bad | Leave

  /** Why a call ended: at a request or the end of the buffer, on a malformed byte, because an already
      rejected command went on for too long, or at an inline command or over-long name. */
  datatype Exit = Regular | Malformed | TooMany | OutOfModel

  class RequestParser {
    const table: CommandTable
    var state: State
    var argNum: nat
    var argCnt: nat
    var argLen: nat
    var bodyCnt: nat
    var cmd: string
    var command: Command
    var status: Outcome
    var byteCnt: nat
    /** `mReq` and `mKey`, as offsets in the stream of bytes received. */
    var reqBegin: nat
    var reqEnd: nat
    var keyBegin: nat
    var keyEnd: nat

    ghost predicate Valid()
      reads `state, `argLen, `bodyCnt, `status
    {
      && (InBody() ==> bodyCnt <= argLen) && (state == CmdBody ==> argLen < MAX_CMD_LEN)
      && status in {Normal, CmdError, ArgError}
    }

    predicate InBody()
      reads `state
    {
      state == CmdBody || (state.Arg? && state.phase == Body)
    }

    /** The parser at stream offset `at`, having handed over `out`. */
    ghost function View(at: nat, out: seq<Part>): (q: Snapshot)
      ensures q.At?
      reads `state, `argNum, `argCnt, `argLen, `bodyCnt, `cmd, `command, `status, `reqBegin, `keyBegin, `keyEnd
    {
      At(state, argNum, argCnt, argLen, if InBody() then bodyCnt else 0,
         cmd, command, status, reqBegin, keyBegin, keyEnd, at, out)
    }

    /** The name has not been read yet, or the command is rejected already. */
    predicate Counts()
      reads `state, `status
    {
      state in {ArgNum, ArgNumLF, CmdTag, CmdLen, CmdLenLF, CmdBody, CmdBodyLF} || status != Normal
    }

    /** At stream offset `at` the loop has turned no more often than it has read bytes of the command. */
    predicate Counted(at: nat)
      reads `state, `status, `byteCnt, `reqBegin
    {
      (state == Idle ==> byteCnt == 0 && status == Normal) && (Counts() && state != Idle ==> reqBegin + byteCnt <= at)
    }

    /** The same while the byte at `at` is read. */
    predicate Ticked(at: nat)
      reads `state, `status, `byteCnt, `reqBegin
    {
      (state == Idle ==> byteCnt == 1 && status == Normal) && (Counts() && state != Idle ==> reqBegin + byteCnt <= at + 1)
    }

    predicate IsFresh()
      reads this
    {
      && state == Idle && argNum == argCnt == argLen == bodyCnt == byteCnt == 0
      && cmd == [] && command == NoCommand && status == Normal && reqBegin == keyBegin == keyEnd == 0
    }

    lemma {:induction false} FreshView(at: nat, out: seq<Part>)
      requires IsFresh()
      ensures Valid() && Counted(at) && View(at, out) == Fresh(at, out)
    {
    }

    constructor (table: CommandTable)
      ensures IsFresh() && this.table == table
    {
      this.table := table;
      state, argNum, argCnt, argLen, bodyCnt := Idle, 0, 0, 0, 0;
      cmd, command, status, byteCnt := [], NoCommand, Normal, 0;
      reqBegin, reqEnd, keyBegin, keyEnd := 0, 0, 0, 0;
    }

    method Reset()
      modifies this
      ensures IsFresh()
    {
      state, argNum, argCnt, argLen, bodyCnt := Idle, 0, 0, 0, 0;
      cmd, command, status, byteCnt := [], NoCommand, Normal, 0;
      reqBegin, reqEnd, keyBegin, keyEnd := 0, 0, 0, 0;
    }

    /** `parseCmd` */
    method ParseCmd(ghost at: nat, ghost out: seq<Part>)
      requires Valid()
      modifies this`command, this`status
      ensures Valid() && View(at, out) == Lookup(old(View(at, out)), table)
    {
      var name := CString(cmd);
      if name !in table {
        command, status := NoCommand, CmdError;
      } else {
        command := table[name];
        if argNum < command.minArgs || argNum > command.maxArgs {
          status := ArgError;
        } else if command.pairs && argNum % 2 == 0 {
          status := ArgError;
        }
      }
    }

    /** The status handed back at `Done`. */
    function DoneStatus(): Outcome
      reads `state, `status
    {
      if state != Finished then Partial else if status == Normal then Complete else status
    }

    /** The request that ends at offset `at`. */
    ghost function PartHere(at: nat): Part
      reads `state, `status, `reqBegin, `keyBegin, `keyEnd
    {
      Part(DoneStatus(), reqBegin, at, keyBegin, keyEnd)
    }

    /** The parser at offset `at` after a turn that ended with `v`. */
    ghost function Result(v: Verdict, at: nat, out: seq<Part>): Snapshot
      reads `state, `argNum, `argCnt, `argLen, `bodyCnt, `cmd, `command, `status, `reqBegin, `keyBegin, `keyEnd
    {
      match v
      case GoOn => View(at, out)
      case Emitted => View(at, out + [PartHere(at)])
      case Bad => Failed(out)
      case Leave => Unmodelled(out)
    }

    method HandleIdle(ch: char, pos: nat, split: bool, ghost out: seq<Part>) returns (v: Verdict)
      requires Valid() && state == Idle
      modifies this`state, this`argNum, this`reqBegin
      ensures v != Emitted && Valid() && state != Finished
      ensures v == GoOn ==> state == ArgNum && reqBegin == pos
      ensures Step(old(View(pos, out)), ch, table, split) == Result(v, pos + 1, out)
    {
      argNum := 0;
      if ch != '*' { return Leave; }
      reqBegin := pos;
      state := ArgNum;
      v := GoOn;
    }

    /** The states of the argument count. */
    method HandleArgNum(ch: char, ghost at: nat, split: bool, ghost out: seq<Part>) returns (v: Verdict)
      requires Valid() && state in {ArgNum, ArgNumLF}
      modifies this`state, this`argNum, this`argCnt
      ensures v in {GoOn, Bad} && (v == GoOn ==> Valid() && state in {ArgNum, ArgNumLF, CmdTag})
      ensures Step(old(View(at, out)), ch, table, split) == Result(v, at + 1, out)
    {
      hide StepArg, StepCmd;
      v := GoOn;
      if state == ArgNum {
        if IsDigit(ch) { argNum := argNum * 10 + DigitValue(ch); }
        else if ch == '\r' && argNum > 0 { state := ArgNumLF; }
        else { v := Bad; }
      } else {
        argCnt := 0;
        if ch == '\n' { state := CmdTag; } else { v := Bad; }
      }
    }

    static lemma {:induction false} CmdStep(p: Snapshot, ch: char, table: CommandTable, split: bool)
      requires p.At? && p.state in {CmdTag, CmdLen, CmdLenLF, CmdBody}
      ensures Step(p, ch, table, split) == StepCmd(p.(at := p.at + 1), ch, table)
    {
      hide StepCmd;
    }

    /** The states in front of the name. */
    method HandleCmdHead(ch: char, ghost at: nat, split: bool, ghost out: seq<Part>) returns (v: Verdict)
      requires Valid() && state in {CmdTag, CmdLen, CmdLenLF}
      modifies this`state, this`argLen, this`bodyCnt, this`cmd
      ensures v != Emitted && (v == GoOn ==> Valid() && state in {CmdLen, CmdLenLF, CmdBody})
      ensures Step(old(View(at, out)), ch, table, split) == Result(v, at + 1, out)
    {
      hide Step, NameDone;
      CmdStep(View(at, out), ch, table, split);
      OneOn(at, out);
      v := GoOn;
      if state == CmdTag {
        if ch == '$' { argLen, state := 0, CmdLen; } else { v := Bad; }
      } else if state == CmdLen {
        if IsDigit(ch) { argLen := argLen * 10 + DigitValue(ch); }
        else if ch == '\r' && argLen > 0 { state := CmdLenLF; }
        else { v := Bad; }
      } else {
        if ch != '\n' { return Bad; }
        bodyCnt, cmd := 0, [];
        if argLen < MAX_CMD_LEN { state := CmdBody; } else { v := Leave; }
      }
    }

    /** The name. */
    method HandleCmdBody(ch: char, ghost at: nat, split: bool, ghost out: seq<Part>) returns (v: Verdict)
      requires Valid() && state == CmdBody
      modifies this`state, this`bodyCnt, this`cmd
      ensures v in {GoOn, Bad} && (v == GoOn ==> Valid() && state in {CmdBody, CmdBodyLF})
      ensures Step(old(View(at, out)), ch, table, split) == Result(v, at + 1, out)
    {
      hide Step, NameDone;
      CmdStep(View(at, out), ch, table, split);
      OneOn(at, out);
      v := GoOn;
      if bodyCnt == argLen {
        if ch == '\r' { state := CmdBodyLF; } else { v := Bad; }
      } else {
        cmd, bodyCnt := cmd + [ToLower(ch)], bodyCnt + 1;
      }
    }

    lemma {:induction false} OneOn(at: nat, out: seq<Part>)
      ensures var p := View(at, out); p.(at := at + 1) == View(at + 1, out)
    {
    }

    /** What the line end behind the name does. */
    static lemma {:induction false} NameEnds(p: Snapshot, ch: char, table: CommandTable, split: bool)
      requires p.At? && p.state == CmdBodyLF
      ensures Step(p, ch, table, split)
           == if ch == '\n' then NameDone(p.(at := p.at + 1), table) else Failed(p.out)
    {
      hide NameDone;
    }

    /** The line end behind the name. */
    method HandleCmdBodyLF(ch: char, ghost at: nat, split: bool, ghost out: seq<Part>) returns (v: Verdict)
      requires Valid() && state == CmdBodyLF
      modifies this`state, this`argCnt, this`command, this`status
      ensures v != Leave && Valid() && (v == GoOn ==> state.Arg?) && (v == Emitted ==> state == Finished)
      ensures Step(old(View(at, out)), ch, table, split) == Result(v, at + 1, out)
    {
      hide Step, Lookup;
      NameEnds(View(at, out), ch, table, split);
      OneOn(at, out);
      if ch != '\n' { return Bad; }
      ParseCmd(at + 1, out);
      argCnt := argCnt + 1;
      if argCnt == argNum {
        state := Finished;
        v := Emitted;
      } else {
        state := Arg(if command.keys == FirstKey then Key else Multi, Tag);
        v := GoOn;
      }
    }

    /** A rejected command is not cut. */
    static lemma {:induction false} SplitsNormal(keys: KeyMode, argNum: nat, argCnt: nat, status: Outcome, split: bool)
      ensures IsSplit(keys, argNum, argCnt, status, split) ==> status == Normal
    {
    }

    /** What a byte in front of the body of an argument does. */
    static lemma {:induction false} ArgHeadStep(p: Snapshot, ch: char, table: CommandTable, split: bool)
      requires p.At? && p.state.Arg? && p.state.phase in {Tag, Len, LenLF}
      ensures Step(p, ch, table, split) == StepArg(p.(at := p.at + 1), ch, p.state.lane, p.state.phase, split)
    {
      hide StepArg;
    }

    /** The states of an argument in front of its body. `pos` is the stream offset of `ch`. */
    method HandleArgHead(ch: char, pos: nat, split: bool, ghost out: seq<Part>) returns (v: Verdict)
      requires Valid() && state.Arg? && state.phase in {Tag, Len, LenLF}
      modifies this`state, this`argLen, this`bodyCnt, this`reqBegin
      ensures v in {GoOn, Bad} && Valid() && state.Arg?
      ensures status != Normal ==> reqBegin == old(reqBegin)
      ensures Step(old(View(pos, out)), ch, table, split) == Result(v, pos + 1, out)
    {
      hide IsSplit, Step, StepBody, ArgDone;
      ArgHeadStep(View(pos, out), ch, table, split);
      OneOn(pos, out);
      v := GoOn;
      var lane := state.lane;
      if state.phase == Tag {
        argLen := 0;
        if ch != '$' { return Bad; }
        SplitsNormal(command.keys, argNum, argCnt, status, split);
        if lane == Multi && IsSplit(command.keys, argNum, argCnt, status, split) { reqBegin := pos; }
        state := Arg(lane, Len);
      } else if state.phase == Len {
        if IsDigit(ch) { argLen := argLen * 10 + DigitValue(ch); }
        else if ch == '\r' { state := Arg(lane, LenLF); }
        else { v := Bad; }
      } else {
        bodyCnt := 0;
        if ch == '\n' { state := Arg(lane, Body); } else { v := Bad; }
      }
    }

    /** What the line end behind an argument does. */
    static lemma {:induction false} ArgEnds(p: Snapshot, ch: char, table: CommandTable, split: bool)
      requires p.At? && p.state.Arg? && p.state.phase == BodyLF
      ensures Step(p, ch, table, split)
           == if ch == '\n' then ArgDone(p.(at := p.at + 1), p.state.lane, split) else Failed(p.out)
    {
      hide ArgDone;
    }

    /** The line end behind an argument. */
    method HandleArgBodyLF(ch: char, pos: nat, split: bool, ghost out: seq<Part>) returns (v: Verdict)
      requires Valid() && state.Arg? && state.phase == BodyLF
      modifies this`state, this`argCnt
      ensures v != Leave && Valid() && (v == GoOn ==> state.Arg?)
      ensures v == Emitted ==> state == Finished || (state.Arg? && status == Normal)
      ensures Step(old(View(pos, out)), ch, table, split) == Result(v, pos + 1, out)
    {
      hide IsSplit, Step;
      ArgEnds(View(pos, out), ch, table, split);
      OneOn(pos, out);
      if ch != '\n' { return Bad; }
      var lane := state.lane;
      argCnt := argCnt + 1;
      if argCnt == argNum {
        state := Finished;
        return Emitted;
      }
      state := Arg(if lane == Multi then Multi else Plain, Tag);
      SplitsNormal(command.keys, argNum, argCnt, status, split);
      v := if lane == Multi && IsSplit(command.keys, argNum, argCnt, status, split) then Emitted else GoOn;
    }

    /** The body of an argument: skips to the byte behind it or to the end of the buffer. */
    method SkipBody(buf: string, cursor: nat, base: nat, split: bool, ghost out: seq<Part>)
      returns (bad: bool, next: nat)
      requires Valid() && state.Arg? && state.phase == Body && cursor < |buf|
      modifies this`state, this`bodyCnt, this`keyBegin, this`keyEnd
      ensures !bad ==> Valid() && cursor < next <= |buf| && state.Arg?
      ensures !bad ==> Run(old(View(base + cursor, out)), buf[cursor..next], table, split) == View(base + next, out)
      ensures bad ==> Run(old(View(base + cursor, out)), buf[cursor..], table, split) == Failed(out)
    {
      hide Run, Step, IsKey;
      bad := false;
      ghost var p := View(base + cursor, out);
      var lane := state.lane;
      var key := lane == Key || (lane == Multi && IsKey(command.keys, argCnt, split));
      assert key == IsKeyArg(p, lane, split);
      hide IsKeyArg;
      if bodyCnt + (|buf| - cursor) > argLen {
        next := cursor + argLen - bodyCnt;
        RunBodyAndEnd(p, buf, cursor, next, table, split);
        if bodyCnt == 0 && key { keyBegin := base + cursor; }
        if buf[next] == '\r' {
          state := Arg(lane, BodyLF);
          if key { keyEnd := base + next; }
        } else {
          bad := true;
        }
        next := next + 1;
      } else {
        if bodyCnt == 0 && key { keyBegin := base + cursor; }
        bodyCnt := bodyCnt + (|buf| - cursor);
        next := |buf|;
        RunArgBody(p, buf[cursor..next], table, split);
      }
    }

    /** The rest of a body, which ends at `next`, and the byte behind it. */
    static lemma {:induction false} RunBodyAndEnd(p: Snapshot, buf: string, cursor: nat, next: nat,
            table: CommandTable, split: bool)
      requires p.At? && p.state.Arg? && p.state.phase == Body
      requires cursor <= next < |buf| && p.bodyCnt + (next - cursor) == p.argLen
      ensures buf[next] == '\r' ==>
                var key := IsKeyArg(p, p.state.lane, split);
                Run(p, buf[cursor..next + 1], table, split)
                == p.(bodyCnt := 0, at := p.at + (next - cursor) + 1, state := Arg(p.state.lane, BodyLF),
                      keyBegin := if p.bodyCnt == 0 && key then p.at else p.keyBegin,
                      keyEnd := if key then p.at + (next - cursor) else p.keyEnd)
      ensures buf[next] != '\r' ==> Run(p, buf[cursor..], table, split) == Failed(p.out)
    {
      hide IsKey, Run;
      var s, c := buf[cursor..next], buf[next];
      assert buf[cursor..next + 1] == s + [c];
      RunConcat(p, s, [c], table, split);
      if s == [] {
        RunEmpty(p, table, split);
      } else {
        RunArgBody(p, s, table, split);
      }
      RunOne(Run(p, s, table, split), c, table, split);
      if c != '\r' {
        assert buf[cursor..] == buf[cursor..next + 1] + buf[next + 1..];
        RunConcat(p, buf[cursor..next + 1], buf[next + 1..], table, split);
        RunStopped(Failed(p.out), buf[next + 1..], table, split);
      }
    }

    static lemma {:induction false} RunStopped(p: Snapshot, s: string, table: CommandTable, split: bool)
      requires !p.At?
      ensures Run(p, s, table, split) == p
      decreases |s|
    {
      if s != [] { RunStopped(p, s[1..], table, split); }
    }

    /** One byte outside the body of an argument. */
    method HandleByte(ch: char, at: nat, split: bool, ghost out: seq<Part>) returns (v: Verdict)
      requires Valid() && state != Finished && !(state.Arg? && state.phase == Body) && Ticked(at)
      modifies this`state, this`argNum, this`argCnt, this`argLen, this`bodyCnt
      modifies this`cmd, this`command, this`status, this`reqBegin
      ensures v in {GoOn, Emitted} ==> Valid() && (v == GoOn ==> state != Finished)
      ensures v in {GoOn, Emitted} && state != Finished ==> Counted(at + 1)
      ensures Step(old(View(at, out)), ch, table, split) == Result(v, at + 1, out)
    {
      hide Step, View, Result, Valid;
      if state == Idle {
        v := HandleIdle(ch, at, split, out);
      } else if state.Arg? && state.phase == BodyLF {
        v := HandleArgBodyLF(ch, at, split, out);
      } else if state.Arg? {
        v := HandleArgHead(ch, at, split, out);
      } else if state == CmdBodyLF {
        v := HandleCmdBodyLF(ch, at, split, out);
      } else if state == CmdBody {
        v := HandleCmdBody(ch, at, split, out);
      } else if state in {ArgNum, ArgNumLF} {
        v := HandleArgNum(ch, at, split, out);
      } else {
        v := HandleCmdHead(ch, at, split, out);
      }
    }

    /** One turn of the loop: one byte, or in the body of an argument as many as there are. */
    method Turn(buf: string, cursor: nat, base: nat, split: bool, ghost out: seq<Part>) returns (v: Verdict, next: nat)
      requires Valid() && cursor < |buf| && state != Finished && Ticked(base + cursor)
      modifies this`state, this`argNum, this`argCnt, this`argLen, this`bodyCnt
      modifies this`cmd, this`command, this`status, this`reqBegin, this`keyBegin, this`keyEnd
      ensures v in {GoOn, Emitted} ==> Valid() && cursor < next <= |buf| && (v == GoOn ==> state != Finished)
      ensures v in {GoOn, Emitted} && state != Finished ==> Counted(base + next)
      ensures v in {GoOn, Emitted} ==>
                Run(old(View(base + cursor, out)), buf[cursor..next], table, split) == Result(v, base + next, out)
      ensures v in {Bad, Leave} ==> Run(old(View(base + cursor, out)), buf[cursor..], table, split) == Result(v, 0, out)
    {
      hide Step, View, Run, Valid;
      ghost var p := View(base + cursor, out);
      var ch := buf[cursor];
      next := cursor + 1;
      if state.Arg? && state.phase == Body {
        var bad;
        bad, next := SkipBody(buf, cursor, base, split, out);
        v := if bad then Bad else GoOn;
      } else {
        v := HandleByte(ch, base + cursor, split, out);
        FirstByte(p, buf, cursor, table, split);
      }
    }

    /** Reading on from the first byte. */
    static lemma {:induction false} FirstByte(p: Snapshot, buf: string, cursor: nat, table: CommandTable, split: bool)
      requires cursor < |buf|
      ensures Run(p, buf[cursor..cursor + 1], table, split) == Step(p, buf[cursor], table, split)
      ensures !Step(p, buf[cursor], table, split).At? ==>
                Run(p, buf[cursor..], table, split) == Step(p, buf[cursor], table, split)
    {
      hide Step, Run;
      var ch, next := buf[cursor], cursor + 1;
      assert buf[cursor..next] == [ch] && buf[cursor..] == [ch] + buf[next..];
      RunOne(p, ch, table, split);
      if !Step(p, ch, table, split).At? {
        RunConcat(p, [ch], buf[next..], table, split);
        RunStopped(Step(p, ch, table, split), buf[next..], table, split);
      }
    }

    /** `++mByteCnt` */
    method Tick(ghost at: nat)
      requires Counted(at)
      modifies this`byteCnt
      ensures Ticked(at) && byteCnt == old(byteCnt) + 1
    {
      byteCnt := byteCnt + 1;
    }

    lemma {:induction false} StatusOf()
      requires Valid()
      ensures DoneStatus() !in {Normal, ParseError}
    {
    }

    lemma {:induction false} LongRejected(at: nat)
      requires Ticked(at) && status != Normal && byteCnt > MAX_ALLOW_INVALID_BYTE_COUNT
      ensures at - reqBegin >= MAX_ALLOW_INVALID_BYTE_COUNT
    {
    }

    static lemma {:induction false} RunSlices(p: Snapshot, buf: string, a: nat, b: nat, c: nat,
            table: CommandTable, split: bool)
      requires a <= b <= c <= |buf|
      ensures Run(p, buf[a..c], table, split) == Run(Run(p, buf[a..b], table, split), buf[b..c], table, split)
    {
      hide Step;
      assert buf[a..c] == buf[a..b] + buf[b..c];
      RunConcat(p, buf[a..b], buf[b..c], table, split);
    }

    /** Reads `buf` from `pos` on, up to the next request or the end of the buffer. `base` is the stream
        offset of the buffer's first byte. The outcome is that of reading the same bytes one by one. */
    method Parse(buf: string, pos: nat, base: nat, split: bool, ghost out: seq<Part>)
      returns (st: Outcome, npos: nat, exit: Exit)
      requires Valid() && state != Finished && pos <= |buf| && Counted(base + pos)
      modifies this
      ensures exit == Regular <==> st != ParseError
      ensures st != ParseError ==> Valid() && pos <= npos <= |buf| && (state != Finished ==> Counted(base + npos))
      ensures st == Normal ==>
                npos == |buf| && state != Finished
                && Run(old(View(base + pos, out)), buf[pos..npos], table, split) == View(base + npos, out)
      ensures st !in {Normal, ParseError} ==>
                pos < npos && st == DoneStatus() && reqEnd == base + npos
                && Run(old(View(base + pos, out)), buf[pos..npos], table, split)
                   == View(base + npos, out + [PartHere(base + npos)])
      ensures exit == Malformed ==> Run(old(View(base + pos, out)), buf[pos..], table, split) == Failed(out)
      ensures exit == OutOfModel ==> Run(old(View(base + pos, out)), buf[pos..], table, split) == Unmodelled(out)
      ensures exit == TooMany ==>
                pos <= npos <= |buf| && state != Finished && status != Normal
                && base + npos - reqBegin >= 1024
                && Run(old(View(base + pos, out)), buf[pos..npos], table, split) == View(base + npos, out)
    {
      hide Step, Run, View, PartHere, Valid, Counted, Ticked;
      ghost var start := View(base + pos, out);
      var cursor := pos;
      RunEmpty(start, table, split);
      assert buf[pos..pos] == [];
      while cursor < |buf|
        invariant pos <= cursor <= |buf| && Valid() && state != Finished && Counted(base + cursor)
        invariant Run(start, buf[pos..cursor], table, split) == View(base + cursor, out)
        decreases |buf| - cursor
      {
        Tick(base + cursor);
        if status != Normal && byteCnt > MAX_ALLOW_INVALID_BYTE_COUNT {
          LongRejected(base + cursor);
          return ParseError, cursor, TooMany;
        }
        var v, next := Turn(buf, cursor, base, split, out);
        RunSlices(start, buf, pos, cursor, |buf|, table, split);
        assert buf[pos..|buf|] == buf[pos..] && buf[cursor..|buf|] == buf[cursor..];
        if v == Bad { return ParseError, cursor, Malformed; }
        if v == Leave { return ParseError, cursor, OutOfModel; }
        RunSlices(start, buf, pos, cursor, next, table, split);
        if v == Emitted {
          reqEnd := base + next;
          StatusOf();
          return DoneStatus(), next, Regular;
        }
        cursor := next;
      }
      return Normal, cursor, Regular;
    }
  }
}
