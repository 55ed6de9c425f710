/** The read side of a client connection: buffers in, requests out (src/AcceptConnection.cpp, `parse`). */
module RequestReading {
  import opened Bytes
  import opened Resp
  import opened RequestMachine
  import opened RequestParts
  import opened RequestParsing

  /** The parser is reset as soon as a request is complete. */
  function Settle(q: Snapshot): Snapshot {
    if q.At? && q.state == Finished then Fresh(q.at, q.out) else q
  }

  lemma {:induction false} RunSettled(q: Snapshot, s: string, table: CommandTable, split: bool)
    ensures Settle(Run(Settle(q), s, table, split)) == Settle(Run(q, s, table, split))
  {
    hide Step;
    if s == [] {
      RunEmpty(q, table, split);
      RunEmpty(Settle(q), table, split);
    } else if q.At? && q.state == Finished {
      FinishedIsFresh(q, s, table, split);
    }
  }

  // ----- a rejected command is reported as such -----

  /** While a command is being read, its rejection is remembered until it is handed over. */
  predicate Rejected(p: Snapshot) {
    p.At? && p.state != Finished && p.status in {CmdError, ArgError}
  }

  /** From a rejected command on: nothing but the rejection can be handed over next. */
  predicate OnlyRejection(p: Snapshot, q: Snapshot) {
    && p.out <= q.out
    && (if |q.out| == |p.out| then q.At? ==> Rejected(q) else q.out[|p.out|].status in {CmdError, ArgError})
  }

  /** A status other than Normal is a rejection, and is set where the name ends. */
  predicate Sound(p: Snapshot) {
    p.At? ==> p.status in {Normal, CmdError, ArgError} && (p.status != Normal ==> p.state.Arg? || p.state == Finished)
  }

  lemma {:induction false} StepRejected(p: Snapshot, c: char, table: CommandTable, split: bool)
    requires Rejected(p) && p.state.Arg?
    ensures var q := Step(p, c, table, split);
            OnlyRejection(p, q) && (|q.out| == |p.out| && q.At? ==> q.state.Arg?)
  {
    hide IsKey;
  }

  lemma {:induction false} RunRejected(p: Snapshot, s: string, table: CommandTable, split: bool)
    requires Rejected(p) && p.state.Arg?
    ensures OnlyRejection(p, Run(p, s, table, split))
    decreases |s|
  {
    if s != [] {
      var q := Step(p, s[0], table, split);
      StepRejected(p, s[0], table, split);
      hide Step;
      if q.At? && |q.out| == |p.out| {
        RunRejected(q, s[1..], table, split);
      } else {
        HandedOverStays(q, s[1..], table, split);
        if !q.At? { RequestParser.RunStopped(q, s[1..], table, split); }
      }
    }
  }

  lemma {:induction false} StepSound(p: Snapshot, c: char, table: CommandTable, split: bool)
    requires Sound(p)
    ensures Sound(Step(p, c, table, split))
  {
    hide IsKey, IsSplit, Lookup, StepArg, StepCmd, Decimal;
    if p.At? {
      var q := StepOver(p);
      if q.state.Arg? {
        ArgSound(q, c, q.state.lane, q.state.phase, split);
      } else {
        CmdSound(q, c, table);
      }
    }
  }

  lemma {:induction false} ArgSound(p: Snapshot, c: char, lane: Lane, phase: Phase, split: bool)
    requires p.At? && p.at > 0 && p.status in {Normal, CmdError, ArgError} && p.state == Arg(lane, phase)
    ensures Sound(StepArg(p, c, lane, phase, split))
  {
    hide IsKey, IsSplit;
  }

  lemma {:induction false} CmdSound(p: Snapshot, c: char, table: CommandTable)
    requires p.At? && p.at > 0 && p.status == Normal && p.state != Finished
    ensures Sound(StepCmd(p, c, table))
  {
  }

  lemma {:induction false} RunSound(p: Snapshot, s: string, table: CommandTable, split: bool)
    requires Sound(p)
    ensures Sound(Run(p, s, table, split))
    decreases |s|
  {
    if s != [] {
      StepSound(p, s[0], table, split);
      hide Step, Sound;
      RunSound(Step(p, s[0], table, split), s[1..], table, split);
    }
  }

  predicate Taken(ps: seq<Part>) {
    forall i :: 0 <= i < |ps| ==> ps[i].status in {Partial, Complete}
  }

  lemma {:induction false} SplitPartsTaken(o: nat, args: seq<string>, w: nat, k: nat)
    requires 1 <= w && 1 + k * w <= |args|
    ensures Taken(SplitParts(o, args, w, k))
  {
    if k > 0 {
      PartFits(w, k - 1, k, |args|);
      SplitPartsTaken(o, args, w, k - 1);
    }
  }

  lemma {:induction false} AllPartsTaken(o: nat, cmds: seq<seq<string>>, table: CommandTable, split: bool)
    requires AllValid(cmds, table)
    ensures Taken(AllParts(o, cmds, table, split))
    decreases |cmds|
  {
    hide PartsOf, AllParts, ValidCommand, AllValid, EncodeCommand, Taken;
    if cmds == [] {
      NoPartsTaken(o, table, split);
    } else {
      FirstIsValid(cmds, table);
      AllPartsFirst(o, cmds, table, split);
      var next := o + |EncodeCommand(cmds[0])|;
      PartsTaken(o, cmds[0], table, split);
      AllPartsTaken(next, cmds[1..], table, split);
      TakenConcat(PartsOf(o, cmds[0], table, split), AllParts(next, cmds[1..], table, split));
    }
  }

  lemma {:induction false} NoPartsTaken(o: nat, table: CommandTable, split: bool)
    ensures AllValid([], table) && Taken(AllParts(o, [], table, split))
  {
  }

  lemma {:induction false} AllPartsFirst(o: nat, cmds: seq<seq<string>>, table: CommandTable, split: bool)
    requires AllValid(cmds, table) && cmds != [] && ValidCommand(cmds[0], table) && AllValid(cmds[1..], table)
    ensures AllParts(o, cmds, table, split)
         == PartsOf(o, cmds[0], table, split) + AllParts(o + |EncodeCommand(cmds[0])|, cmds[1..], table, split)
  {
    hide PartsOf, ValidCommand, AllValid, EncodeCommand;
  }

  lemma {:induction false} FirstIsValid(cmds: seq<seq<string>>, table: CommandTable)
    requires AllValid(cmds, table) && cmds != []
    ensures ValidCommand(cmds[0], table) && AllValid(cmds[1..], table)
  {
    hide ValidCommand;
    assert forall i :: 0 <= i < |cmds| - 1 ==> cmds[1..][i] == cmds[i + 1];
  }

  lemma {:induction false} TakenConcat(a: seq<Part>, b: seq<Part>)
    requires Taken(a) && Taken(b)
    ensures Taken(a + b)
  {
  }

  lemma {:induction false} PartsTaken(o: nat, args: seq<string>, table: CommandTable, split: bool)
    requires ValidCommand(args, table)
    ensures Taken(PartsOf(o, args, table, split))
  {
    hide SplitParts, EncodeCommand, ArgAt, BodyAt;
    var w := Width(CommandOf(args, table).keys);
    assert 1 + (|args| - 1) / w * w <= |args|;
    SplitPartsTaken(o, args, w, (|args| - 1) / w);
  }

  /** A connection gives up on a stream at a byte the machine rejects, at one outside the model, or 1024 bytes and
      more into a command that is already rejected. */
  ghost predicate Broken(s: string, table: CommandTable, split: bool) {
    exists k :: 0 <= k <= |s| && GivesUp(Run(Fresh(0, []), s[..k], table, split))
  }

  predicate GivesUp(q: Snapshot) {
    q.At? ==> q.state != Finished && q.status != Normal && q.at - q.reqBegin >= 1024
  }

  lemma {:induction false} StoppedGivesUp(q: Snapshot)
    requires !q.At?
    ensures GivesUp(q)
  {
  }

  /** No prefix of a stream of valid commands is given up on. */
  lemma {:induction false} ValidStreamIsNotBroken(s: string, cmds: seq<seq<string>>, table: CommandTable, split: bool)
    requires AllValid(cmds, table) && s <= EncodeCommands(cmds)
    ensures !Broken(s, table, split)
  {
    forall k | 0 <= k <= |s| ensures !GivesUp(Run(Fresh(0, []), s[..k], table, split)) {
      ValidPrefixGoesOn(s[..k], cmds, table, split);
    }
  }

  lemma {:induction false} ValidPrefixGoesOn(s: string, cmds: seq<seq<string>>, table: CommandTable, split: bool)
    requires AllValid(cmds, table) && s <= EncodeCommands(cmds)
    ensures !GivesUp(Run(Fresh(0, []), s, table, split))
    ensures Run(Fresh(0, []), s, table, split).out <= AllParts(0, cmds, table, split)
  {
    hide Run, Step, AllParts, EncodeCommands;
    var all := EncodeCommands(cmds);
    var p := Fresh(0, []);
    var q := Run(p, s, table, split);
    assert all == s + all[|s|..];
    RunConcat(p, s, all[|s|..], table, split);
    PipelineIsHandedOver(0, [], cmds, table, split);
    assert [] + AllParts(0, cmds, table, split) == AllParts(0, cmds, table, split);
    HandedOverStays(q, all[|s|..], table, split);
    RunSound(p, s, table, split);
    AllPartsTaken(0, cmds, table, split);
    var last := Run(q, all[|s|..], table, split);
    assert last.At? && last.out == AllParts(0, cmds, table, split);
    if !q.At? { RequestParser.RunStopped(q, all[|s|..], table, split); }
    if Rejected(q) {
      RunRejected(q, all[|s|..], table, split);
      assert |last.out| > |q.out| ==> last.out[|q.out|].status in {Partial, Complete};
      NoCommandsNoBytes(cmds, s, table, split);
    }
  }

  lemma {:induction false} NoCommandsNoBytes(cmds: seq<seq<string>>, s: string, table: CommandTable, split: bool)
    requires s <= EncodeCommands(cmds)
    ensures cmds == [] ==> !Rejected(Run(Fresh(0, []), s, table, split))
  {
    if cmds == [] { RunEmpty(Fresh(0, []), table, split); }
  }

  // ----- calls -----

  /** One call of `parse`: what it reads, and whether it cuts commands. */
  datatype Call = Call(buf: string, split: bool)

  /** Where the calls lead to, one after the other. */
  function RunCalls(q: Snapshot, calls: seq<Call>, table: CommandTable): Snapshot
    decreases |calls|
  {
    if calls == [] then q else
    var last := calls[|calls| - 1];
    Run(RunCalls(q, calls[..|calls| - 1], table), last.buf, table, last.split)
  }

  function StreamOf(calls: seq<Call>): string
    decreases |calls|
  {
    if calls == [] then [] else StreamOf(calls[..|calls| - 1]) + calls[|calls| - 1].buf
  }

  /** The connection gives up inside this buffer. */
  ghost predicate GivesUpIn(q: Snapshot, buf: string, table: CommandTable, split: bool) {
    exists k :: 0 <= k <= |buf| && GivesUp(Run(q, buf[..k], table, split))
  }

  ghost predicate BrokenAt(calls: seq<Call>, j: nat, table: CommandTable)
    requires j < |calls|
  {
    GivesUpIn(RunCalls(Fresh(0, []), calls[..j], table), calls[j].buf, table, calls[j].split)
  }

  /** Some call gives up. */
  ghost predicate BrokenCalls(calls: seq<Call>, table: CommandTable) {
    exists j :: 0 <= j < |calls| && BrokenAt(calls, j, table)
  }

  /** While no call cuts where another does not, it does not matter how the stream is cut into buffers. */
  lemma {:induction false} CutDoesNotMatter(calls: seq<Call>, table: CommandTable, split: bool)
    requires forall i :: 0 <= i < |calls| ==> calls[i].split == split
    ensures RunCalls(Fresh(0, []), calls, table) == Run(Fresh(0, []), StreamOf(calls), table, split)
    ensures BrokenCalls(calls, table) ==> Broken(StreamOf(calls), table, split)
    decreases |calls|
  {
    hide Run, GivesUpIn;
    RunEmpty(Fresh(0, []), table, split);
    if calls != [] {
      var n := |calls| - 1;
      var front, buf := calls[..n], calls[n].buf;
      CutDoesNotMatter(front, table, split);
      RunConcat(Fresh(0, []), StreamOf(front), buf, table, split);
      if BrokenCalls(calls, table) {
        var j :| 0 <= j < |calls| && BrokenAt(calls, j, table);
        if j < n {
          assert front[..j] == calls[..j] && BrokenAt(front, j, table);
          BrokenStays(StreamOf(front), buf, table, split);
        } else {
          BreaksHere(StreamOf(front), buf, table, split);
        }
      }
    }
  }

  lemma {:induction false} BrokenStays(s: string, t: string, table: CommandTable, split: bool)
    requires Broken(s, table, split)
    ensures Broken(s + t, table, split)
  {
    hide Run;
    var k :| 0 <= k <= |s| && GivesUp(Run(Fresh(0, []), s[..k], table, split));
    assert (s + t)[..k] == s[..k];
  }

  lemma {:induction false} BreaksHere(s: string, buf: string, table: CommandTable, split: bool)
    requires GivesUpIn(Run(Fresh(0, []), s, table, split), buf, table, split)
    ensures Broken(s + buf, table, split)
  {
    hide Run;
    var k :| 0 <= k <= |buf| && GivesUp(Run(Run(Fresh(0, []), s, table, split), buf[..k], table, split));
    RunConcat(Fresh(0, []), s, buf[..k], table, split);
    assert (s + buf)[..|s| + k] == s + buf[..k];
  }

  lemma {:induction false} SettledGivesUp(q: Snapshot, buf: string, table: CommandTable, split: bool)
    requires GivesUpIn(Settle(q), buf, table, split)
    ensures GivesUpIn(q, buf, table, split)
  {
    hide Run, Settle;
    var k :| 0 <= k <= |buf| && GivesUp(Run(Settle(q), buf[..k], table, split));
    SameGivesUp(q, buf[..k], table, split);
    assert GivesUp(Run(q, buf[..k], table, split));
  }

  lemma {:induction false} SameGivesUp(q: Snapshot, s: string, table: CommandTable, split: bool)
    requires GivesUp(Run(Settle(q), s, table, split))
    ensures GivesUp(Run(q, s, table, split))
  {
    hide Run;
    RunSettled(q, s, table, split);
  }

  /** Whether the command is cut in one mode and not in the other. */
  predicate Cuttable(args: seq<string>, table: CommandTable)
    requires ValidCommand(args, table)
  {
    Splits(CommandOf(args, table).keys, |args|, true) && !Splits(CommandOf(args, table).keys, |args|, false)
  }

  predicate AnyCuttable(cmds: seq<seq<string>>, table: CommandTable)
    requires AllValid(cmds, table)
  {
    exists i :: 0 <= i < |cmds| && Cuttable(cmds[i], table)
  }

  /** What is handed over depends on the mode exactly if some command can be cut. */
  lemma {:induction false} ModeMatters(o: nat, cmds: seq<seq<string>>, table: CommandTable)
    requires AllValid(cmds, table)
    ensures AllParts(o, cmds, table, true) == AllParts(o, cmds, table, false) <==> !AnyCuttable(cmds, table)
  {
    MorePartsIfCut(o, cmds, table);
  }

  lemma {:induction false} MorePartsIfCut(o: nat, cmds: seq<seq<string>>, table: CommandTable)
    requires AllValid(cmds, table)
    ensures !AnyCuttable(cmds, table) ==> AllParts(o, cmds, table, true) == AllParts(o, cmds, table, false)
    ensures |AllParts(o, cmds, table, true)| >= |AllParts(o, cmds, table, false)|
    ensures AnyCuttable(cmds, table) ==> |AllParts(o, cmds, table, true)| > |AllParts(o, cmds, table, false)|
    decreases |cmds|
  {
    hide PartsOf, AllParts, ValidCommand, AllValid, EncodeCommand, Cuttable, AnyCuttable;
    if cmds == [] {
      NothingToCut(o, table);
    } else {
      FirstIsValid(cmds, table);
      AllPartsFirst(o, cmds, table, true);
      AllPartsFirst(o, cmds, table, false);
      PartsIfCut(o, cmds[0], table);
      AnyCuttableCons(cmds, table);
      MorePartsIfCut(o + |EncodeCommand(cmds[0])|, cmds[1..], table);
    }
  }

  lemma {:induction false} NothingToCut(o: nat, table: CommandTable)
    ensures AllValid([], table) && !AnyCuttable([], table)
    ensures AllParts(o, [], table, true) == AllParts(o, [], table, false) == []
  {
  }

  lemma {:induction false} AnyCuttableCons(cmds: seq<seq<string>>, table: CommandTable)
    requires AllValid(cmds, table) && cmds != [] && ValidCommand(cmds[0], table) && AllValid(cmds[1..], table)
    ensures AnyCuttable(cmds, table) <==> Cuttable(cmds[0], table) || AnyCuttable(cmds[1..], table)
  {
    hide Cuttable, ValidCommand;
    if i :| 0 <= i < |cmds| - 1 && Cuttable(cmds[1..][i], table) { assert Cuttable(cmds[i + 1], table); }
    if i :| 0 < i < |cmds| && Cuttable(cmds[i], table) { assert Cuttable(cmds[1..][i - 1], table); }
  }

  lemma {:induction false} PartsIfCut(o: nat, args: seq<string>, table: CommandTable)
    requires ValidCommand(args, table)
    ensures !Cuttable(args, table) ==> PartsOf(o, args, table, true) == PartsOf(o, args, table, false)
    ensures Cuttable(args, table) ==> |PartsOf(o, args, table, true)| > |PartsOf(o, args, table, false)|
  {
    hide SplitParts, WholePart;
  }

  /** Reading on inside a buffer, from the settled state. */
  lemma {:induction false} Extend(q0: Snapshot, buf: string, a: nat, b: nat, table: CommandTable, split: bool)
    requires a <= b <= |buf|
    ensures Settle(Run(q0, buf[..b], table, split))
         == Settle(Run(Settle(Run(q0, buf[..a], table, split)), buf[a..b], table, split))
  {
    hide Run, Settle;
    assert buf[..b] == buf[..a] + buf[a..b];
    RunConcat(q0, buf[..a], buf[a..b], table, split);
    RunSettled(Run(q0, buf[..a], table, split), buf[a..b], table, split);
  }

  /** The state reached inside a buffer makes the connection give up. */
  lemma {:induction false} GivenUp(q0: Snapshot, buf: string, a: nat, b: nat, table: CommandTable, split: bool)
    requires a <= b <= |buf|
    requires GivesUp(Run(Settle(Run(q0, buf[..a], table, split)), buf[a..b], table, split))
    ensures GivesUpIn(q0, buf, table, split)
  {
    hide Run;
    Extend(q0, buf, a, b, table, split);
    assert GivesUp(Run(q0, buf[..b], table, split));
  }

  /** `AcceptConnection::parse` over the buffers a client sends. */
  class RequestReader {
    const parser: RequestParser
    /** The requests handed over so far, oldest first. */
    var handed: seq<Part>
    /** Offset in the stream of the next byte. */
    var received: nat
    var good: bool
    ghost var calls: seq<Call>

    /** Up to `pos` in the buffer behind the calls that led to `q0`, what has been handed over is what they and the
        buffer amount to. */
    ghost predicate Reading(q0: Snapshot, buf: string, pos: nat, split: bool)
      requires pos <= |buf|
      reads this, parser
    {
      && parser.Valid() && parser.state != Finished && parser.Counted(received + pos)
      && Settle(Run(q0, buf[..pos], parser.table, split)) == parser.View(received + pos, handed)
    }

    ghost predicate Valid()
      reads this, parser
    {
      && received == |StreamOf(calls)| && parser.Valid() && parser.state != Finished && parser.Counted(received)
      && Settle(RunCalls(Fresh(0, []), calls, parser.table)) == parser.View(received, handed)
    }

    constructor (table: CommandTable)
      ensures Valid() && good && calls == [] && handed == [] && parser.table == table
      ensures fresh(parser)
    {
      parser := new RequestParser(table);
      handed, received, good, calls := [], 0, true, [];
      new;
      parser.FreshView(0, []);
    }

    /** One call of the parser, from `pos` on. */
    method ReadOne(buf: string, pos: nat, split: bool, ghost q0: Snapshot) returns (npos: nat)
      requires good && pos < |buf| && Reading(q0, buf, pos, split)
      modifies `handed, `good, parser
      ensures pos <= npos <= |buf| && (good ==> pos < npos && Reading(q0, buf, npos, split))
      ensures !good ==> GivesUpIn(q0, buf, parser.table, split)
    {
      hide Run, Step, GivesUpIn, Settle, RequestParser.View, RequestParser.Counted, RequestParser.Valid, GivesUp;
      ghost var p := parser.View(received + pos, handed);
      var st, end, exit := parser.Parse(buf, pos, received, split, handed);
      npos := end;
      if st == ParseError {
        good, npos := false, pos;
        assert buf[pos..|buf|] == buf[pos..];
        if exit == TooMany {
          LongRejectionGivesUp(received + end);
          GivenUp(q0, buf, pos, end, parser.table, split);
        } else {
          StoppedGivesUp(Failed(handed));
          StoppedGivesUp(Unmodelled(handed));
          GivenUp(q0, buf, pos, |buf|, parser.table, split);
        }
      } else {
        Extend(q0, buf, pos, end, parser.table, split);
        if st == Normal {
          GoesOn(received + end);
        } else {
          handed := handed + [Part(st, parser.reqBegin, parser.reqEnd, parser.keyBegin, parser.keyEnd)];
          GoesOn(received + end);
          Settled(received + end);
          if st != Partial {
            parser.Reset();
            parser.FreshView(received + end, handed);
          }
        }
      }
    }

    /** A parser that is not finished is settled, and one that is starts anew. */
    lemma {:induction false} GoesOn(at: nat)
      ensures parser.state != Finished ==> Settle(parser.View(at, handed)) == parser.View(at, handed)
    {
    }

    lemma {:induction false} Settled(at: nat)
      requires parser.Valid()
      ensures parser.state == Finished ==> Settle(parser.View(at, handed)) == Fresh(at, handed)
      ensures parser.DoneStatus() == Partial <==> parser.state != Finished
    {
    }

    lemma {:induction false} Starts(buf: string, split: bool)
      requires Valid()
      ensures Reading(Settle(RunCalls(Fresh(0, []), calls, parser.table)), buf, 0, split)
    {
      hide Run;
      var q := Settle(RunCalls(Fresh(0, []), calls, parser.table));
      assert buf[..0] == [];
      RunEmpty(q, parser.table, split);
    }

    lemma {:induction false} AllRead(q0: Snapshot, buf: string, split: bool)
      requires Reading(Settle(q0), buf, |buf|, split)
      ensures var at := received + |buf|;
              && parser.Valid() && parser.state != Finished && parser.Counted(at)
              && Settle(Run(q0, buf, parser.table, split)) == parser.View(at, handed)
              && handed == Run(q0, buf, parser.table, split).out
    {
      hide Run;
      assert buf[..|buf|] == buf;
      RunSettled(q0, buf, parser.table, split);
    }

    lemma {:induction false} OneCallMore(was: seq<Call>, c: Call)
      ensures RunCalls(Fresh(0, []), was + [c], parser.table)
           == Run(RunCalls(Fresh(0, []), was, parser.table), c.buf, parser.table, c.split)
      ensures StreamOf(was + [c]) == StreamOf(was) + c.buf
    {
      hide Run;
      assert (was + [c])[..|was|] == was;
    }

    lemma {:induction false} Breaks(was: seq<Call>, c: Call)
      requires GivesUpIn(Settle(RunCalls(Fresh(0, []), was, parser.table)), c.buf, parser.table, c.split)
      ensures BrokenCalls(was + [c], parser.table)
    {
      hide Run, RunCalls, GivesUpIn;
      var q := RunCalls(Fresh(0, []), was, parser.table);
      assert (was + [c])[..|was|] == was;
      SettledGivesUp(q, c.buf, parser.table, c.split);
      assert BrokenAt(was + [c], |was|, parser.table);
    }

    lemma {:induction false} LongRejectionGivesUp(at: nat)
      requires parser.state != Finished && parser.status != Normal
      requires at - parser.reqBegin >= MAX_ALLOW_INVALID_BYTE_COUNT
      ensures GivesUp(parser.View(at, handed))
    {
    }

    /** Reads one more buffer, in the mode that `split` says. While the connection is good, what has been handed over is
        what all calls so far amount to. The connection turns bad only on calls that are broken. */
    method Read(buf: string, split: bool)
      requires Valid() && good
      modifies this, parser
      ensures calls == old(calls) + [Call(buf, split)]
      ensures good ==> Valid() && handed == RunCalls(Fresh(0, []), calls, parser.table).out
      ensures !good ==> BrokenCalls(calls, parser.table)
    {
      hide Run, Settle, GivesUpIn, Reading, RequestParser.View, RequestParser.Counted, RequestParser.Valid, RunCalls;
      var pos := 0;
      ghost var was, q0 := calls, RunCalls(Fresh(0, []), calls, parser.table);
      Starts(buf, split);
      while pos < |buf| && good
        invariant pos <= |buf| && was == old(calls) == calls && received == |StreamOf(was)|
        invariant good ==> Reading(Settle(q0), buf, pos, split)
        invariant !good ==> GivesUpIn(Settle(q0), buf, parser.table, split)
        decreases |buf| - pos, good
      {
        pos := ReadOne(buf, pos, split, Settle(q0));
      }
      OneCallMore(was, Call(buf, split));
      if good { AllRead(q0, buf, split); } else { Breaks(was, Call(buf, split)); }
      received := received + |buf|;
      calls := calls + [Call(buf, split)];
    }
  }
}
