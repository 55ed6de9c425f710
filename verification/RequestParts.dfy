/** What the request parser hands over for a whole command, and what those bytes mean. */
module RequestParts {
  import opened Bytes
  import opened Resp
  import opened RequestMachine

  /** A command the parser accepts: a name shorter than 32 bytes that is known, with a permitted number of arguments. */
  predicate ValidCommand(args: seq<string>, table: CommandTable) {
    && args != [] && 0 < |args[0]| < 32
    && CString(Lower(args[0])) in table
    && var c := table[CString(Lower(args[0]))];
    && (c.pairs <==> c.keys == MultiKeyVal) && !WrongCount(c, |args|)
  }

  /** A number of strings that the command does not take. */
  predicate WrongCount(c: Command, n: nat) {
    n < c.minArgs || n > c.maxArgs || (c.pairs && n % 2 == 0)
  }

  function CommandOf(args: seq<string>, table: CommandTable): Command
    requires ValidCommand(args, table)
  {
    table[CString(Lower(args[0]))]
  }

  /** Whether a command of `n` strings is cut into parts. */
  predicate Splits(keys: KeyMode, n: nat, split: bool) {
    match keys
    case MultiKey => split && n > 2
    case MultiKeyVal => split && n > 3
    case SMultiKey => n > 2
    case _ => false
  }

  /** Arguments per part. */
  function Width(keys: KeyMode): (w: nat)
    ensures 1 <= w <= 2
  {
    if keys == MultiKeyVal then 2 else 1
  }

  /** Offset of argument `i` of a command that starts at `o`. */
  function ArgAt(o: nat, args: seq<string>, i: nat): nat
    requires i <= |args|
  {
    o + |CommandHead(|args|)| + |EncodeBulks(args[..i])|
  }

  /** Offset of its first body byte. */
  function BodyAt(o: nat, args: seq<string>, i: nat): nat
    requires i < |args|
  {
    ArgAt(o, args, i) + HeadSize(args[i])
  }

  /** The argument that is the key of a command that is not cut, or 0. */
  function KeyArg(keys: KeyMode, n: nat): (k: nat)
    ensures k < n || k == 0
  {
    match keys
    case NoKey => 0
    case KeyAt2 => if n > 2 then 2 else 0
    case KeyAt3 => if n > 3 then 3 else 0
    case _ => if n > 1 then 1 else 0
  }

  /** The one part of a command that is not cut: all of it. */
  function WholePart(o: nat, args: seq<string>, keys: KeyMode): Part {
    var k := KeyArg(keys, |args|);
    Part(Complete, o, ArgAt(o, args, |args|),
         if k == 0 then 0 else BodyAt(o, args, k), if k == 0 then 0 else BodyAt(o, args, k) + |args[k]|)
  }

  /** The part of `w` arguments that starts with argument `i`. */
  function PartFrom(o: nat, args: seq<string>, w: nat, i: nat): Part
    requires 1 <= w && i + w <= |args|
  {
    Part(if i + w == |args| then Complete else Partial, ArgAt(o, args, i), ArgAt(o, args, i + w),
         BodyAt(o, args, i), BodyAt(o, args, i) + |args[i]|)
  }

  /** Part `u` of a command that is cut. */
  function SplitPart(o: nat, args: seq<string>, w: nat, u: nat): Part
    requires 1 <= w && 1 + (u + 1) * w <= |args|
  {
    assert 1 + u * w + w == 1 + (u + 1) * w;
    PartFrom(o, args, w, 1 + u * w)
  }

  function SplitParts(o: nat, args: seq<string>, w: nat, k: nat): (ps: seq<Part>)
    requires 1 <= w && 1 + k * w <= |args|
    ensures |ps| == k
  {
    if k == 0 then [] else
    assert 1 + (k - 1) * w <= |args|;
    SplitParts(o, args, w, k - 1) + [SplitPart(o, args, w, k - 1)]
  }

  /** The requests handed over for a valid command at offset `o`. */
  function PartsOf(o: nat, args: seq<string>, table: CommandTable, split: bool): seq<Part>
    requires ValidCommand(args, table)
  {
    var keys := CommandOf(args, table).keys;
    var w := Width(keys);
    if Splits(keys, |args|, split)
    then assert 1 + (|args| - 1) / w * w <= |args|; SplitParts(o, args, w, (|args| - 1) / w)
    else [WholePart(o, args, keys)]
  }

  lemma {:induction false} ArgAtNext(o: nat, args: seq<string>, i: nat)
    requires i < |args|
    ensures ArgAt(o, args, i + 1) == ArgAt(o, args, i) + |EncodeBulk(args[i])|
  {
    hide EncodeBulk, CommandHead;
    assert args[..i + 1] == args[..i] + [args[i]];
    EncodeBulksConcat(args[..i], [args[i]]);
    assert EncodeBulks([args[i]]) == EncodeBulk(args[i]) + EncodeBulks([]);
  }

  // ----- commands that are not cut -----

  /** In front of argument `i` of a command that is not cut. */
  ghost predicate ReadingWhole(p: Snapshot, o: nat, args: seq<string>, i: nat, out: seq<Part>, keys: KeyMode) {
    var k := KeyArg(keys, |args|);
    && 0 < i && AtTag(p, |args|, i) && p.status == Normal && p.command.keys == keys
    && p.state.lane == (if keys != FirstKey then Multi else if i == 1 then Key else Plain)
    && p.at == ArgAt(o, args, i) && p.reqBegin == o && p.out == out
    && p.keyBegin == (if 0 < k < i then BodyAt(o, args, k) else 0)
    && p.keyEnd == (if 0 < k < i then BodyAt(o, args, k) + |args[k]| else 0)
  }

  lemma {:induction false} KeyArgIsKey(keys: KeyMode, n: nat, i: nat, split: bool)
    requires 0 < i < n && !Splits(keys, n, split)
    ensures keys != FirstKey ==> (IsKey(keys, i, split) <==> i == KeyArg(keys, n))
    ensures keys == FirstKey ==> KeyArg(keys, n) == 1
    ensures forall j :: !IsSplit(keys, n, j, Normal, split)
  {
  }

  lemma {:induction false} WholeArgs(p: Snapshot, o: nat, args: seq<string>, i: nat, out: seq<Part>, keys: KeyMode,
          split: bool)
    requires ReadingWhole(p, o, args, i, out, keys) && !Splits(keys, |args|, split)
    ensures var q := AfterArgs(p, args[i..], split);
            q.At? && q.state == Finished && q.at == ArgAt(o, args, |args|)
            && q.out == out + [WholePart(o, args, keys)]
    decreases |args| - i
  {
    hide ArgAt, HeadSize, KeyArg, IsKey, IsSplit, Splits;
    KeyArgIsKey(keys, |args|, i, split);
    ArgAtNext(o, args, i);
    var q := AfterArg(p, p.state.lane, args[i], split);
    assert args[i..][1..] == args[i + 1..];
    if i + 1 < |args| {
      WholeArgs(q, o, args, i + 1, out, keys, split);
    }
  }

  // ----- commands that are cut -----

  /** In front of part `u` of a command that is cut. */
  ghost predicate ReadingSplit(p: Snapshot, o: nat, args: seq<string>, w: nat, u: nat, out: seq<Part>, keys: KeyMode) {
    && w == Width(keys) && 1 + u * w < |args| && AtTag(p, |args|, 1 + u * w)
    && p.status == Normal && p.command.keys == keys && p.state.lane == Multi
    && p.at == ArgAt(o, args, 1 + u * w) && p.out == out + SplitParts(o, args, w, u)
  }

  function AfterPart(p: Snapshot, args: seq<string>, w: nat, i: nat, split: bool): Snapshot
    requires 1 <= w <= 2 && i + w <= |args| && p.At?
  {
    var q := AfterArg(p, Multi, args[i], split);
    if w == 2 && q.At? then AfterArg(q, Multi, args[i + 1], split) else q
  }

  lemma {:induction false} OnePart(p: Snapshot, o: nat, args: seq<string>, w: nat, i: nat, keys: KeyMode, split: bool)
    requires w == Width(keys) && Splits(keys, |args|, split) && 0 < i && i + w <= |args|
    requires w == 2 ==> i % 2 == 1 && |args| % 2 == 1
    requires AtTag(p, |args|, i) && p.status == Normal && p.command.keys == keys && p.state.lane == Multi
    requires p.at == ArgAt(o, args, i)
    ensures var r := AfterPart(p, args, w, i, split);
            r.At? && r.out == p.out + [PartFrom(o, args, w, i)] && r.at == ArgAt(o, args, i + w)
            && r.status == Normal && r.command.keys == keys
            && (if i + w == |args| then r.state == Finished else AtTag(r, |args|, i + w) && r.state.lane == Multi)
    ensures AfterArgs(p, args[i..], split) == AfterArgs(AfterPart(p, args, w, i, split), args[i + w..], split)
  {
    hide ArgAt, HeadSize, IsKey, IsSplit, Splits, EncodeBulk;
    SplitStarts(keys, |args|, i, split);
    SplitStarts(keys, |args|, i + 1, split);
    SplitStarts(keys, |args|, i + 2, split);
    ArgAtNext(o, args, i);
    assert args[i..][1..] == args[i + 1..];
    var q := AfterArg(p, Multi, args[i], split);
    if w == 2 {
      assert q.out == p.out && AtTag(q, |args|, i + 1) && q.state.lane == Multi;
      assert q.reqBegin == p.at && q.keyBegin == BodyAt(o, args, i) && q.keyEnd == BodyAt(o, args, i) + |args[i]|;
      ArgAtNext(o, args, i + 1);
      assert args[i + 1..][1..] == args[i + 2..];
    }
  }

  /** Inside a command that is cut, a part starts where a key is. */
  lemma {:induction false} SplitStarts(keys: KeyMode, n: nat, i: nat, split: bool)
    requires Splits(keys, n, split) && i > 0
    ensures IsSplit(keys, n, i, Normal, split) <==> (keys == MultiKeyVal ==> i % 2 == 1)
    ensures IsKey(keys, i, split) <==> (keys == MultiKeyVal ==> i % 2 == 1)
  {
  }

  lemma {:induction false} SplitArgs(p: Snapshot, o: nat, args: seq<string>, w: nat, u: nat, k: nat, out: seq<Part>,
          keys: KeyMode, split: bool)
    requires ReadingSplit(p, o, args, w, u, out, keys) && Splits(keys, |args|, split)
    requires 1 + k * w == |args|
    ensures var q := AfterArgs(p, args[1 + u * w..], split);
            q.At? && q.state == Finished && q.at == ArgAt(o, args, |args|)
            && q.out == out + SplitParts(o, args, w, k)
    decreases |args| - u
  {
    hide ArgAt, HeadSize, AfterPart, AfterArg, AfterArgs, IsKey, IsSplit, Splits, SplitPart;
    var i := 1 + u * w;
    NextPart(w, u, k);
    var r := AfterPart(p, args, w, i, split);
    OnePart(p, o, args, w, i, keys, split);
    SplitPartsNext(o, args, w, u);
    assert r.out == out + SplitParts(o, args, w, u + 1);
    if i + w < |args| {
      SplitArgs(r, o, args, w, u + 1, k, out, keys, split);
    } else {
      assert args[i + w..] == [];
      NothingLeft(r, split);
    }
  }

  lemma {:induction false} NothingLeft(p: Snapshot, split: bool)
    ensures AfterArgs(p, [], split) == p
  {
  }

  lemma {:induction false} SplitPartsNext(o: nat, args: seq<string>, w: nat, u: nat)
    requires 1 <= w && 1 + (u + 1) * w <= |args| && 1 + u * w + w == 1 + (u + 1) * w
    ensures SplitParts(o, args, w, u + 1) == SplitParts(o, args, w, u) + [PartFrom(o, args, w, 1 + u * w)]
  {
    hide ArgAt;
  }

  lemma {:induction false} NextPart(w: nat, u: nat, k: nat)
    requires 1 <= w <= 2 && u * w < k * w
    ensures 1 + u * w + w == 1 + (u + 1) * w <= 1 + k * w
    ensures w == 2 ==> (1 + u * w) % 2 == 1 && (1 + k * w) % 2 == 1
    ensures u * w + w == k * w ==> u + 1 == k
  {
    if w == 1 { assert u * w == u && k * w == k; } else { assert u * w == u + u && k * w == k + k; }
  }

  // ----- every valid command -----

  /** Behind the name of a valid command that has arguments. */
  lemma {:induction false} NameIsRead(o: nat, out: seq<Part>, args: seq<string>, table: CommandTable)
    requires ValidCommand(args, table) && |args| > 1
    ensures var p, keys := AfterName(Fresh(o, out), |args|, args[0], table), CommandOf(args, table).keys;
            && AtTag(p, |args|, 1) && p.status == Normal && p.command.keys == keys && p.at == ArgAt(o, args, 1)
            && p.out == out && p.reqBegin == o && p.keyBegin == 0 && p.keyEnd == 0
            && p.state.lane == (if keys == FirstKey then Key else Multi)
  {
    hide ArgAt;
    NameEnd(o, args);
  }

  /** Cutting leaves no argument over. */
  lemma {:induction false} CutIsEven(args: seq<string>, table: CommandTable, split: bool)
    requires ValidCommand(args, table) && Splits(CommandOf(args, table).keys, |args|, split)
    ensures CommandOf(args, table).keys != FirstKey
    ensures var w := Width(CommandOf(args, table).keys); (|args| - 1) % w == 0 && 1 + (|args| - 1) / w * w == |args|
  {
    PartCount(|args|, Width(CommandOf(args, table).keys));
  }

  /** The parts that a command is cut into. */
  lemma {:induction false} CutIsHandedOver(o: nat, out: seq<Part>, args: seq<string>, table: CommandTable, split: bool)
    requires ValidCommand(args, table) && |args| > 1 && Splits(CommandOf(args, table).keys, |args|, split)
    ensures var q := AfterArgs(AfterName(Fresh(o, out), |args|, args[0], table), args[1..], split);
            q.At? && q.state == Finished && q.at == ArgAt(o, args, |args|) && q.out == out + PartsOf(o, args, table, split)
  {
    hide AfterName, AfterArgs, AtTag, ArgAt, ValidCommand, SplitParts, CommandOf, Width, Splits;
    var keys := CommandOf(args, table).keys;
    var w := Width(keys);
    NameIsRead(o, out, args, table);
    NoSplitParts(o, args, w);
    CutIsEven(args, table, split);
    SplitArgs(AfterName(Fresh(o, out), |args|, args[0], table), o, args, w, 0, (|args| - 1) / w, out, keys, split);
  }

  /** The one part of a command that is not cut. */
  lemma {:induction false} WholeIsHandedOver(o: nat, out: seq<Part>, args: seq<string>, table: CommandTable, split: bool)
    requires ValidCommand(args, table) && |args| > 1 && !Splits(CommandOf(args, table).keys, |args|, split)
    ensures var q := AfterArgs(AfterName(Fresh(o, out), |args|, args[0], table), args[1..], split);
            q.At? && q.state == Finished && q.at == ArgAt(o, args, |args|) && q.out == out + PartsOf(o, args, table, split)
  {
    hide AfterName, AfterArgs, AtTag, ArgAt, ValidCommand, WholePart, CommandOf, Splits;
    NameIsRead(o, out, args, table);
    WholeArgs(AfterName(Fresh(o, out), |args|, args[0], table), o, args, 1, out, CommandOf(args, table).keys, split);
  }

  /** A valid command is read to its last byte, and is handed over whole or part by part exactly as `PartsOf` says. */
  lemma {:induction false} CommandIsHandedOver(o: nat, out: seq<Part>, args: seq<string>, table: CommandTable,
          split: bool)
    requires ValidCommand(args, table)
    ensures var q := Run(Fresh(o, out), EncodeCommand(args), table, split);
            q.At? && q.state == Finished && q.at == o + |EncodeCommand(args)|
            && q.out == out + PartsOf(o, args, table, split)
  {
    hide Run, AfterName, AfterArgs, ArgAt, EncodeCommand, PartsOf, Splits;
    RunCommand(o, out, args, table, split);
    ArgsEnd(o, args);
    if |args| == 1 {
      assert args[1..] == [];
      NothingLeft(AfterName(Fresh(o, out), 1, args[0], table), split);
      OnlyName(o, out, args, table, split);
    } else if Splits(CommandOf(args, table).keys, |args|, split) {
      CutIsHandedOver(o, out, args, table, split);
    } else {
      WholeIsHandedOver(o, out, args, table, split);
    }
  }

  // ----- commands that are rejected -----

  /** Names are looked up in lower case, letter by letter. */
  lemma {:induction false} LowerIs(s: string, i: nat)
    requires i < |s|
    ensures |Lower(s)| == |s|
    ensures Lower(s)[i] as int == s[i] as int + if 65 <= s[i] as int <= 90 then 32 else 0
  {
    if i > 0 { LowerIs(s[1..], i - 1); }
  }

  lemma {:induction false} GetIsFound()
    ensures CString(Lower("GET")) == "get"
  {
    assert "GET"[1..] == "ET" && "ET"[1..] == "T" && "T"[1..] == "";
    assert Lower("GET") == "get";
  }

  /** Behind the name of a rejected command all arguments are read over, and nothing else is handed over. */
  lemma {:induction false} RejectedArgs(p: Snapshot, args: seq<string>, n: nat, i: nat, split: bool)
    requires AtTag(p, n, i) && p.status in {CmdError, ArgError} && i + |args| == n
    ensures var q := AfterArgs(p, args, split);
            && q.At? && q.state == Finished && q.at == p.at + |EncodeBulks(args)|
            && HandsOver(p.out, q.out, p.status, p.reqBegin, q.at)
    decreases |args|
  {
    hide EncodeBulk, IsKey;
    var q := AfterArg(p, p.state.lane, args[0], split);
    if i + 1 < n { RejectedArgs(q, args[1..], n, i + 1, split); }
  }

  /** One more part, from `b` to `e`. */
  predicate HandsOver(was: seq<Part>, now: seq<Part>, status: Outcome, b: nat, e: nat) {
    && |now| == |was| + 1 && now[..|was|] == was
    && now[|was|].status == status && now[|was|].reqBegin == b && now[|was|].reqEnd == e
  }

  /** A command that is not in the table, or with a number of strings that it does not take, is read to its last byte
      and handed over in one, marked as what is wrong with it. */
  lemma {:induction false} RejectedIsHandedOver(o: nat, out: seq<Part>, args: seq<string>, table: CommandTable,
          split: bool)
    requires args != [] && 0 < |args[0]| < 32
    requires var name := CString(Lower(args[0])); name !in table || WrongCount(table[name], |args|)
    ensures var q := Run(Fresh(o, out), EncodeCommand(args), table, split);
            && q.At? && q.state == Finished && q.at == o + |EncodeCommand(args)|
            && HandsOver(out, q.out, if CString(Lower(args[0])) !in table then CmdError else ArgError, o, q.at)
  {
    hide Run, EncodeCommand, AfterArgs, EncodeBulks, EncodeBulk, CommandHead, Lower, CString;
    var p := AfterName(Fresh(o, out), |args|, args[0], table);
    RunCommand(o, out, args, table, split);
    CommandIsHeadAndBulks(args);
    NameAndArgs(args);
    if |args| == 1 {
      NothingLeft(p, split);
      assert args[1..] == [];
      NoBulks();
    } else {
      RejectedArgs(p, args[1..], |args|, 1, split);
    }
  }

  lemma {:induction false} NameAndArgs(args: seq<string>)
    requires args != []
    ensures EncodeBulks(args) == EncodeBulk(args[0]) + EncodeBulks(args[1..])
  {
  }

  lemma {:induction false} PartCount(n: nat, w: nat)
    requires 1 <= w <= 2 && n > 0 && (n - 1) % w == 0
    ensures 1 + (n - 1) / w * w == n
  {
  }

  lemma {:induction false} NoSplitParts(o: nat, args: seq<string>, w: nat)
    requires 1 <= w && 1 <= |args|
    ensures SplitParts(o, args, w, 0) == []
  {
  }

  lemma {:induction false} OnlyName(o: nat, out: seq<Part>, args: seq<string>, table: CommandTable, split: bool)
    requires ValidCommand(args, table) && |args| == 1
    ensures var q := AfterName(Fresh(o, out), 1, args[0], table);
            q.At? && q.state == Finished && q.at == ArgAt(o, args, 1)
            && q.out == out + PartsOf(o, args, table, split)
  {
    NameEnd(o, args);
  }

  /** The first argument starts where the name ends. */
  lemma {:induction false} NameEnd(o: nat, args: seq<string>)
    requires args != []
    ensures ArgAt(o, args, 1) == o + |CommandHead(|args|)| + |EncodeBulk(args[0])|
  {
    hide EncodeBulk, CommandHead;
    assert args[..1] == [args[0]];
    assert EncodeBulks([args[0]]) == EncodeBulk(args[0]) + EncodeBulks([]);
  }

  // ----- pipelines -----

  function EncodeCommands(cmds: seq<seq<string>>): string {
    if cmds == [] then [] else EncodeCommand(cmds[0]) + EncodeCommands(cmds[1..])
  }

  predicate AllValid(cmds: seq<seq<string>>, table: CommandTable) {
    forall i :: 0 <= i < |cmds| ==> ValidCommand(cmds[i], table)
  }

  function AllParts(o: nat, cmds: seq<seq<string>>, table: CommandTable, split: bool): seq<Part>
    requires AllValid(cmds, table)
    decreases |cmds|
  {
    if cmds == [] then [] else
    assert ValidCommand(cmds[0], table);
    assert forall i :: 0 <= i < |cmds| - 1 ==> cmds[1..][i] == cmds[i + 1];
    PartsOf(o, cmds[0], table, split) + AllParts(o + |EncodeCommand(cmds[0])|, cmds[1..], table, split)
  }

  lemma {:induction false} FinishedIsFresh(q: Snapshot, s: string, table: CommandTable, split: bool)
    requires q.At? && q.state == Finished && s != []
    ensures Run(q, s, table, split) == Run(Fresh(q.at, q.out), s, table, split)
  {
    assert StepOver(q) == StepOver(Fresh(q.at, q.out));
    assert Step(q, s[0], table, split) == Step(Fresh(q.at, q.out), s[0], table, split);
  }

  /** However many commands the client sends without waiting, and wherever the stream is cut
      (`RunConcat`), exactly their requests are handed over, in order. */
  lemma {:induction false} PipelineIsHandedOver(o: nat, out: seq<Part>, cmds: seq<seq<string>>,
          table: CommandTable, split: bool)
    requires AllValid(cmds, table)
    ensures var q := Run(Fresh(o, out), EncodeCommands(cmds), table, split);
            q.At? && q.out == out + AllParts(o, cmds, table, split)
            && (cmds != [] ==> q.state == Finished && q.at == o + |EncodeCommands(cmds)|)
    decreases |cmds|
  {
    hide Step, Run, EncodeCommand, PartsOf, ValidCommand;
    var p := Fresh(o, out);
    if cmds == [] {
      RunEmpty(p, table, split);
    } else {
      var rest := cmds[1..];
      assert ValidCommand(cmds[0], table);
      CommandIsHandedOver(o, out, cmds[0], table, split);
      var q := Run(p, EncodeCommand(cmds[0]), table, split);
      RunConcat(p, EncodeCommand(cmds[0]), EncodeCommands(rest), table, split);
      assert forall i :: 0 <= i < |rest| ==> rest[i] == cmds[i + 1];
      PipelineIsHandedOver(q.at, q.out, rest, table, split);
      assert out + PartsOf(o, cmds[0], table, split) + AllParts(q.at, rest, table, split)
          == out + AllParts(o, cmds, table, split);
      if rest == [] {
        RunEmpty(q, table, split);
      } else {
        EncodeCommandsNotEmpty(rest);
        FinishedIsFresh(q, EncodeCommands(rest), table, split);
      }
    }
  }

  lemma {:induction false} EncodeCommandsNotEmpty(cmds: seq<seq<string>>)
    requires cmds != []
    ensures EncodeCommands(cmds) != []
  {
    assert EncodeCommand(cmds[0]) != [];
  }

  /** What has been handed over stays handed over, whatever bytes follow. */
  lemma {:induction false} HandedOverStays(p: Snapshot, s: string, table: CommandTable, split: bool)
    ensures p.out <= Run(p, s, table, split).out
    decreases |s|
  {
    if s != [] {
      StepKeepsOut(p, s[0], table, split);
      hide Step;
      HandedOverStays(Step(p, s[0], table, split), s[1..], table, split);
    }
  }

  lemma {:induction false} StepKeepsOut(p: Snapshot, c: char, table: CommandTable, split: bool)
    ensures p.out <= Step(p, c, table, split).out
  {
    hide IsKey, IsSplit, IsKeyArg, Lookup, StepArg, StepCmd;
    if p.At? {
      var q := StepOver(p);
      if q.state.Arg? {
        StepArgKeepsOut(q, c, q.state.lane, q.state.phase, split);
      } else {
        StepCmdKeepsOut(q, c, table);
      }
    }
  }

  lemma {:induction false} StepCmdKeepsOut(p: Snapshot, c: char, table: CommandTable)
    requires p.At? && p.at > 0
    ensures p.out <= StepCmd(p, c, table).out
  {
    hide Lookup;
  }

  lemma {:induction false} StepArgKeepsOut(p: Snapshot, c: char, lane: Lane, phase: Phase, split: bool)
    requires p.At? && p.at > 0
    ensures p.out <= StepArg(p, c, lane, phase, split).out
  {
    hide IsKey, IsSplit, IsKeyArg;
  }

  // ----- what the bytes mean -----

  /** The bytes of `s` between two offsets of the stream, when `s` starts at `o`. */
  function Slice(s: string, o: nat, from: nat, to: nat): string
    requires o <= from <= to <= o + |s|
  {
    s[from - o..to - o]
  }

  lemma {:induction false} ArgBounds(o: nat, args: seq<string>, i: nat, j: nat)
    requires i <= j <= |args|
    ensures o <= ArgAt(o, args, i) <= ArgAt(o, args, j) <= o + |EncodeCommand(args)|
    ensures Slice(EncodeCommand(args), o, ArgAt(o, args, i), ArgAt(o, args, j)) == EncodeBulks(args[i..j])
  {
    hide CommandHead, EncodeBulks, EncodeCommand;
    var h, a, b, c := CommandHead(|args|), EncodeBulks(args[..i]), EncodeBulks(args[i..j]), EncodeBulks(args[j..]);
    CommandInThree(args, i, j);
    SliceMiddle(h + a, b, c);
    assert |EncodeBulks(args[..j])| == |a| + |b|;
  }

  lemma {:induction false} CommandInThree(args: seq<string>, i: nat, j: nat)
    requires i <= j <= |args|
    ensures EncodeBulks(args[..j]) == EncodeBulks(args[..i]) + EncodeBulks(args[i..j])
    ensures EncodeCommand(args)
         == (CommandHead(|args|) + EncodeBulks(args[..i])) + EncodeBulks(args[i..j]) + EncodeBulks(args[j..])
  {
    hide EncodeBulks;
    assert args[..j] == args[..i] + args[i..j];
    assert args == args[..j] + args[j..];
    EncodeBulksConcat(args[..i], args[i..j]);
    EncodeBulksConcat(args[..j], args[j..]);
    var h, a, b, c := CommandHead(|args|), EncodeBulks(args[..i]), EncodeBulks(args[i..j]), EncodeBulks(args[j..]);
    assert h + ((a + b) + c) == (h + a) + b + c;
  }

  lemma {:induction false} SliceMiddle(a: string, b: string, c: string)
    ensures (a + b + c)[|a|..|a| + |b|] == b
  {
  }

  lemma {:induction false} SliceOfSlice(s: string, a: nat, b: nat, c: nat, d: nat)
    requires a <= b <= |s| && c <= d <= b - a
    ensures s[a..b][c..d] == s[a + c..a + d]
  {
    forall k | 0 <= k < d - c ensures s[a..b][c..d][k] == s[a + c..a + d][k] {
      assert s[a..b][c..d][k] == s[a..b][c + k];
    }
  }

  lemma {:induction false} BodyBytes(o: nat, args: seq<string>, i: nat)
    requires i < |args|
    ensures o <= BodyAt(o, args, i) && BodyAt(o, args, i) + |args[i]| <= o + |EncodeCommand(args)|
    ensures Slice(EncodeCommand(args), o, BodyAt(o, args, i), BodyAt(o, args, i) + |args[i]|) == args[i]
  {
    hide EncodeCommand, EncodeBulks, EncodeBulk, ArgAt;
    var a, b := ArgAt(o, args, i), ArgAt(o, args, i + 1);
    var h := HeadSize(args[i]);
    ArgBounds(o, args, i, i + 1);
    ArgAtNext(o, args, i);
    BulkSize(args[i]);
    BodyOfBulk(args[i]);
    OneBulk(args[i]);
    assert args[i..i + 1] == [args[i]];
    SliceOfSlice(EncodeCommand(args), a - o, b - o, h, h + |args[i]|);
  }

  lemma {:induction false} OneBulk(arg: string)
    ensures EncodeBulks([arg]) == EncodeBulk(arg)
  {
    hide EncodeBulk;
    assert [arg][1..] == [];
  }

  lemma {:induction false} BodyOfBulk(arg: string)
    ensures |EncodeBulk(arg)| == HeadSize(arg) + |arg| + 2
    ensures EncodeBulk(arg)[HeadSize(arg)..HeadSize(arg) + |arg|] == arg
  {
    SliceMiddle("$" + Decimal(|arg|) + CRLF, arg, CRLF);
  }

  /** A command that is not cut: the request is the command as sent, and its key is the argument the mode names. */
  lemma {:induction false} WholeMeans(o: nat, args: seq<string>, table: CommandTable, split: bool)
    requires ValidCommand(args, table) && !Splits(CommandOf(args, table).keys, |args|, split)
    ensures var k := KeyArg(CommandOf(args, table).keys, |args|);
            |PartsOf(o, args, table, split)| == 1
            && var p := PartsOf(o, args, table, split)[0];
               p.status == Complete && p.reqBegin == o && p.reqEnd == o + |EncodeCommand(args)|
               && p.keyBegin <= p.keyEnd
               && (k == 0 ==> p.keyBegin == p.keyEnd)
               && (k > 0 ==> o <= p.keyBegin && p.keyEnd <= o + |EncodeCommand(args)|
                             && Slice(EncodeCommand(args), o, p.keyBegin, p.keyEnd) == args[k])
  {
    hide EncodeCommand, ArgAt;
    var k := KeyArg(CommandOf(args, table).keys, |args|);
    ArgsEnd(o, args);
    if k > 0 { BodyBytes(o, args, k); }
  }

  lemma {:induction false} ArgsEnd(o: nat, args: seq<string>)
    ensures ArgAt(o, args, |args|) == o + |EncodeCommand(args)|
  {
    assert args[..|args|] == args;
  }

  lemma {:induction false} SplitPartsAt(o: nat, args: seq<string>, w: nat, k: nat, u: nat)
    requires 1 <= w && 1 + k * w <= |args| && u < k
    ensures 1 + (u + 1) * w <= |args| && SplitParts(o, args, w, k)[u] == SplitPart(o, args, w, u)
  {
    PartFits(w, u, k, |args|);
    PartFits(w, k - 1, k, |args|);
    hide SplitPart;
    if u < k - 1 { SplitPartsAt(o, args, w, k - 1, u); }
  }

  lemma {:induction false} PartFits(w: nat, u: nat, k: nat, n: nat)
    requires 1 <= w && u < k && 1 + k * w <= n
    ensures 1 + u * w + w == 1 + (u + 1) * w <= n
  {
    assert (k - (u + 1)) * w >= 0;
  }

  /** The commands that are cut into parts. */
  datatype SplitCommand =
    | Mget | Mset | Msetnx | Touch | Exists | Del | Unlink
    | Psubscribe | Subscribe | Punsubscribe | Unsubscribe
  {
    function Name(): string {
      match this
      case Mget => "mget"
      case Mset => "mset"
      case Msetnx => "msetnx"
      case Touch => "touch"
      case Exists => "exists"
      case Del => "del"
      case Unlink => "unlink"
      case Psubscribe => "psubscribe"
      case Subscribe => "subscribe"
      case Punsubscribe => "punsubscribe"
      case Unsubscribe => "unsubscribe"
    }

    /** The mode in the command table. */
    function Mode(): KeyMode {
      match this
      case Mset => MultiKeyVal
      case Msetnx => MultiKeyVal
      case Psubscribe => SMultiKey
      case Subscribe => SMultiKey
      case Punsubscribe => SMultiKey
      case Unsubscribe => SMultiKey
      case _ => MultiKey
    }

    /** The bytes put in front of each part: `GenericRequestDefs`. */
    function Head(): string {
      match this
      case Mget => "*2\r\n$4\r\nmget\r\n"
      case Mset => "*3\r\n$4\r\nmset\r\n"
      case Msetnx => "*3\r\n$6\r\nmsetnx\r\n"
      case Touch => "*2\r\n$5\r\ntouch\r\n"
      case Exists => "*2\r\n$6\r\nexists\r\n"
      case Del => "*2\r\n$3\r\ndel\r\n"
      case Unlink => "*2\r\n$6\r\nunlink\r\n"
      case Psubscribe => "*2\r\n$10\r\npsubscribe\r\n"
      case Subscribe => "*2\r\n$9\r\nsubscribe\r\n"
      case Punsubscribe => "*2\r\n$12\r\npunsubscribe\r\n"
      case Unsubscribe => "*2\r\n$11\r\nunsubscribe\r\n"
    }
  }

  lemma {:induction false} HeadText(text: string, n: nat, count: string, name: string, size: string)
    requires Decimal(n) == count && Decimal(|name|) == size
    requires text == "*" + count + CRLF + "$" + size + CRLF + name + CRLF
    ensures text == CommandHead(n) + EncodeBulk(name)
  {
  }

  lemma {:induction false} MgetHead()
    ensures Mget.Head() == CommandHead(2) + EncodeBulk("mget")
  {
    HeadText(Mget.Head(), 2, "2", "mget", "4");
  }

  lemma {:induction false} MsetHead()
    ensures Mset.Head() == CommandHead(3) + EncodeBulk("mset")
  {
    HeadText(Mset.Head(), 3, "3", "mset", "4");
  }

  lemma {:induction false} MsetnxHead()
    ensures Msetnx.Head() == CommandHead(3) + EncodeBulk("msetnx")
  {
    HeadText(Msetnx.Head(), 3, "3", "msetnx", "6");
  }

  lemma {:induction false} TouchHead()
    ensures Touch.Head() == CommandHead(2) + EncodeBulk("touch")
  {
    HeadText(Touch.Head(), 2, "2", "touch", "5");
  }

  lemma {:induction false} ExistsHead()
    ensures Exists.Head() == CommandHead(2) + EncodeBulk("exists")
  {
    HeadText(Exists.Head(), 2, "2", "exists", "6");
  }

  lemma {:induction false} DelHead()
    ensures Del.Head() == CommandHead(2) + EncodeBulk("del")
  {
    HeadText(Del.Head(), 2, "2", "del", "3");
  }

  lemma {:induction false} UnlinkHead()
    ensures Unlink.Head() == CommandHead(2) + EncodeBulk("unlink")
  {
    HeadText(Unlink.Head(), 2, "2", "unlink", "6");
  }

  lemma {:induction false} PsubscribeHead()
    ensures Psubscribe.Head() == CommandHead(2) + EncodeBulk("psubscribe")
  {
    HeadText(Psubscribe.Head(), 2, "2", "psubscribe", "10");
  }

  lemma {:induction false} SubscribeHead()
    ensures Subscribe.Head() == CommandHead(2) + EncodeBulk("subscribe")
  {
    HeadText(Subscribe.Head(), 2, "2", "subscribe", "9");
  }

  lemma {:induction false} PunsubscribeHead()
    ensures Punsubscribe.Head() == CommandHead(2) + EncodeBulk("punsubscribe")
  {
    HeadText(Punsubscribe.Head(), 2, "2", "punsubscribe", "12");
  }

  lemma {:induction false} UnsubscribeHead()
    ensures Unsubscribe.Head() == CommandHead(2) + EncodeBulk("unsubscribe")
  {
    HeadText(Unsubscribe.Head(), 2, "2", "unsubscribe", "11");
  }

  lemma {:induction false} HeadIsCommandHead(c: SplitCommand)
    ensures c.Head() == CommandHead(1 + Width(c.Mode())) + EncodeBulk(c.Name())
  {
    hide EncodeBulk, CommandHead, SplitCommand.Head;
    match c {
      case Mget => MgetHead();
      case Mset => MsetHead();
      case Msetnx => MsetnxHead();
      case Touch => TouchHead();
      case Exists => ExistsHead();
      case Del => DelHead();
      case Unlink => UnlinkHead();
      case Psubscribe => PsubscribeHead();
      case Subscribe => SubscribeHead();
      case Punsubscribe => PunsubscribeHead();
      case Unsubscribe => UnsubscribeHead();
    }
  }

  /** A command that is cut: one part for each key, as many as the leader counts followers; the bytes of a
      part are the key (and its value) as sent, and with the head in front they are the command with that
      one key alone. */
  lemma {:induction false} SplitMeans(o: nat, args: seq<string>, table: CommandTable, split: bool, u: nat)
    requires ValidCommand(args, table) && Splits(CommandOf(args, table).keys, |args|, split)
    requires u < |PartsOf(o, args, table, split)|
    ensures |PartsOf(o, args, table, split)| == Followers(args, CommandOf(args, table))
    ensures var w := Width(CommandOf(args, table).keys);
            var p := PartsOf(o, args, table, split)[u];
            var i := 1 + u * w;
            && i + w <= |args| && (p.status == if i + w == |args| then Complete else Partial)
            && o <= p.reqBegin <= p.reqEnd <= o + |EncodeCommand(args)|
            && o <= p.keyBegin <= p.keyEnd <= o + |EncodeCommand(args)|
            && Slice(EncodeCommand(args), o, p.keyBegin, p.keyEnd) == args[i]
            && Slice(EncodeCommand(args), o, p.reqBegin, p.reqEnd) == EncodeBulks(args[i..i + w])
            && forall c: SplitCommand | c.Mode() == CommandOf(args, table).keys ::
                 c.Head() + Slice(EncodeCommand(args), o, p.reqBegin, p.reqEnd)
                 == EncodeCommand([c.Name()] + args[i..i + w])
  {
    hide EncodeCommand, EncodeBulks, ArgAt, BodyAt, SplitCommand.Head, SplitCommand.Name, SplitCommand.Mode, Slice;
    hide CommandHead, EncodeBulk, Decimal, SplitParts, Lower, CString;
    var keys := CommandOf(args, table).keys;
    var w := Width(keys);
    var k := (|args| - 1) / w;
    PartFits(w, u, k, |args|);
    SplitPartsAt(o, args, w, k, u);
    var i := 1 + u * w;
    ArgBounds(o, args, i, i + w);
    BodyBytes(o, args, i);
    forall c: SplitCommand | c.Mode() == keys
      ensures c.Head() + EncodeBulks(args[i..i + w]) == EncodeCommand([c.Name()] + args[i..i + w])
    {
      HeadIsCommandHead(c);
      OneKeyCommand(c.Name(), args[i..i + w]);
    }
  }

  lemma {:induction false} OneKeyCommand(name: string, args: seq<string>)
    ensures CommandHead(1 + |args|) + EncodeBulk(name) + EncodeBulks(args) == EncodeCommand([name] + args)
  {
    hide EncodeBulk, CommandHead, EncodeCommand;
    var all := [name] + args;
    assert all[0] == name && all[1..] == args && |all| == 1 + |args|;
    assert EncodeBulks(all) == EncodeBulk(name) + EncodeBulks(args);
    CommandIsHeadAndBulks(all);
    var h, a, b := CommandHead(1 + |args|), EncodeBulk(name), EncodeBulks(args);
    assert h + a + b == h + (a + b);
  }

  lemma {:induction false} CommandIsHeadAndBulks(args: seq<string>)
    ensures EncodeCommand(args) == CommandHead(|args|) + EncodeBulks(args)
  {
  }

  /** `mFollowers` of the leader. */
  function Followers(args: seq<string>, c: Command): nat
    requires args != []
  {
    if c.pairs then (|args| - 1) / 2 else |args| - 1
  }

  /** The bytes of the first `k` parts, one after the other. */
  function PartsText(o: nat, args: seq<string>, w: nat, k: nat): string
    requires 1 <= w && 1 + k * w <= |args|
  {
    if k == 0 then [] else
    PartFits(w, k - 1, k, |args|);
    var p := SplitPart(o, args, w, k - 1);
    ArgBounds(o, args, 1 + (k - 1) * w, 1 + (k - 1) * w + w);
    PartsText(o, args, w, k - 1) + Slice(EncodeCommand(args), o, p.reqBegin, p.reqEnd)
  }

  /** The parts together are all the arguments, none lost and none repeated. */
  lemma {:induction false} PartsAreTheArguments(o: nat, args: seq<string>, w: nat, k: nat)
    requires 1 <= w && 1 + k * w <= |args|
    ensures PartsText(o, args, w, k) == EncodeBulks(args[1..1 + k * w])
    decreases k
  {
    hide EncodeBulk, EncodeBulks, EncodeCommand, ArgAt, BodyAt, Slice;
    if k == 0 {
      assert args[1..1] == [];
      NoBulks();
    } else {
      var i := 1 + (k - 1) * w;
      PartFits(w, k - 1, k, |args|);
      PartsAreTheArguments(o, args, w, k - 1);
      ArgBounds(o, args, i, i + w);
      EncodeBulksConcat(args[1..i], args[i..i + w]);
      assert args[1..i] + args[i..i + w] == args[1..i + w];
    }
  }

  lemma {:induction false} NoBulks()
    ensures EncodeBulks([]) == []
  {
  }
}
