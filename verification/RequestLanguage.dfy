/** Which bytes the request parser takes for a command, and at which it stops (src/RequestParser.cpp). */
module RequestLanguage {
  import opened Bytes
  import opened RequestMachine

  /** A string of a command as it is written: the digits of its length, and its bytes. */
  datatype Written = Written(len: string, text: string) {
    predicate Good() { AllDigits(len) && Accumulate(0, len) == |text| }

    function Line(): string { "$" + len + CRLF + text + CRLF }
  }

  function Lines(ws: seq<Written>): string { if ws == [] then [] else ws[0].Line() + Lines(ws[1..]) }

  predicate AllGood(ws: seq<Written>) { forall i :: 0 <= i < |ws| ==> ws[i].Good() }

  /** A command: the digits of the number of its strings, and those, of which the name has 1 to 31 bytes. Zeros may
      stand in front of any number, and the length of an empty argument may have no digits. */
  predicate Proper(count: string, ws: seq<Written>) {
    && AllDigits(count) && Accumulate(0, count) == |ws| && AllGood(ws)
    && ws != [] && 0 < |ws[0].text| < 32
  }

  function Text(count: string, ws: seq<Written>): string { "*" + count + CRLF + Lines(ws) }

  /** The parser gets to the end of a command with the last byte, and not before. */
  predicate Ends(p: Snapshot, s: string, table: CommandTable, split: bool)
    decreases |s|
  {
    && s != [] && p.At? && p.state != Finished
    && var q := Step(p, s[0], table, split);
       if |s| == 1 then q.At? && q.state == Finished else Ends(q, s[1..], table, split)
  }

  /** The parser is inside a command all the time. */
  predicate Inside(p: Snapshot, s: string, table: CommandTable, split: bool)
    decreases |s|
  {
    p.At? && p.state != Finished && (s == [] || Inside(Step(p, s[0], table, split), s[1..], table, split))
  }

  lemma {:induction false} EndsBehind(p: Snapshot, a: string, s: string, table: CommandTable, split: bool)
    requires s != []
    ensures Ends(p, a + s, table, split)
       <==> Inside(p, a, table, split) && Ends(Run(p, a, table, split), s, table, split)
    decreases |a|
  {
    hide Step;
    if a == [] {
      assert a + s == s;
    } else {
      assert (a + s)[0] == a[0] && (a + s)[1..] == a[1..] + s;
      EndsBehind(Step(p, a[0], table, split), a[1..], s, table, split);
    }
  }

  lemma {:induction false} InsideBoth(p: Snapshot, a: string, b: string, table: CommandTable, split: bool)
    ensures Inside(p, a + b, table, split)
       <==> Inside(p, a, table, split) && Inside(Run(p, a, table, split), b, table, split)
    decreases |a|
  {
    hide Step;
    if a == [] {
      assert a + b == b;
    } else {
      assert (a + b)[0] == a[0] && (a + b)[1..] == a[1..] + b;
      InsideBoth(Step(p, a[0], table, split), a[1..], b, table, split);
    }
  }

  lemma {:induction false} EndsTail(p: Snapshot, s: string, table: CommandTable, split: bool)
    requires Ends(p, s, table, split)
    ensures var q := Step(p, s[0], table, split);
            && s != [] && q.At? && (q.state == Finished ==> |s| == 1)
            && (q.state != Finished ==> |s| > 1 && Ends(q, s[1..], table, split))
  {
    hide Step;
  }

  /** The first two bytes, and what is behind them. */
  lemma {:induction false} EndsTwice(p: Snapshot, s: string, table: CommandTable, split: bool)
    requires Ends(p, s, table, split)
    ensures s != []
    ensures var q := Step(p, s[0], table, split);
            && q.At?
            && (q.state != Finished ==>
                  && |s| > 1 && Step(q, s[1], table, split).At?
                  && if Step(q, s[1], table, split).state == Finished then |s| == 2
                     else |s| > 2 && Ends(Step(q, s[1], table, split), s[2..], table, split))
  {
    hide Step;
    var q := Step(p, s[0], table, split);
    if q.state != Finished {
      EndsTail(p, s, table, split);
      assert s[1..][0] == s[1] && s[1..][1..] == s[2..];
    }
  }

  // ----- lines with a number -----

  predicate InNumber(p: Snapshot) {
    p.At? && (p.state == ArgNum || p.state == CmdLen || (p.state.Arg? && p.state.phase == Len))
  }

  function NumberIn(p: Snapshot): nat
    requires p.At?
  {
    if p.state == ArgNum then p.argNum else p.argLen
  }

  /** Behind `size` digits. */
  function WithNumber(p: Snapshot, n: nat, size: nat): Snapshot
    requires p.At?
  {
    if p.state == ArgNum then p.(argNum := n, at := p.at + size) else p.(argLen := n, at := p.at + size)
  }

  /** Numbers that the line may have. */
  predicate MayBe(p: Snapshot, n: int)
    requires p.At?
  {
    (p.state == ArgNum ==> n > 0) && (p.state == CmdLen ==> 0 < n < 32)
  }

  /** Behind the line. */
  function AfterLine(p: Snapshot, n: nat, size: nat): Snapshot
    requires InNumber(p)
  {
    if p.state == ArgNum then p.(argNum := n, argCnt := 0, state := CmdTag, at := p.at + size)
    else if p.state == CmdLen then p.(argLen := n, bodyCnt := 0, cmd := [], state := CmdBody, at := p.at + size)
    else p.(argLen := n, bodyCnt := 0, state := Arg(p.state.lane, Body), at := p.at + size)
  }

  lemma {:induction false} DigitIsTaken(p: Snapshot, c: char, table: CommandTable, split: bool)
    requires InNumber(p) && IsDigit(c)
    ensures var n := NumberIn(p) * 10 + DigitValue(c);
            n >= 0 && Step(p, c, table, split) == WithNumber(p, n, 1)
  {
  }

  lemma {:induction false} RunDigits(p: Snapshot, ds: string, table: CommandTable, split: bool)
    requires InNumber(p) && AllDigits(ds)
    ensures Accumulate(NumberIn(p), ds) >= 0
    ensures Run(p, ds, table, split) == WithNumber(p, Accumulate(NumberIn(p), ds), |ds|)
    ensures Inside(p, ds, table, split)
    decreases |ds|
  {
    hide Step;
    if ds != [] {
      DigitIsTaken(p, ds[0], table, split);
      RunDigits(Step(p, ds[0], table, split), ds[1..], table, split);
    }
  }

  /** Behind a number only a line end is taken, and only if the number may be. */
  lemma {:induction false} LineEnd(p: Snapshot, c: char, d: char, table: CommandTable, split: bool)
    requires InNumber(p) && !IsDigit(c)
    ensures var q := Step(p, c, table, split);
            var r := Step(q, d, table, split);
            && !(q.At? && q.state == Finished) && !(r.At? && r.state == Finished)
            && (q.At? && r.At? <==> c == '\r' && d == '\n' && MayBe(p, NumberIn(p)))
            && (q.At? && r.At? ==> r == AfterLine(p, NumberIn(p), 2))
  {
    hide StepBody, ArgDone, NameDone;
  }

  lemma {:induction false} LineForm(p: Snapshot, s: string, table: CommandTable, split: bool)
    requires InNumber(p) && Ends(p, s, table, split) && !IsDigit(s[0])
    ensures |s| > 2 && s[0] == '\r' && s[1] == '\n' && MayBe(p, NumberIn(p))
    ensures Ends(AfterLine(p, NumberIn(p), 2), s[2..], table, split)
  {
    hide Step, Ends, MayBe, AfterLine;
    EndsTwice(p, s, table, split);
    LineEnd(p, s[0], if |s| > 1 then s[1] else ' ', table, split);
  }

  lemma {:induction false} OneDigitMore(p: Snapshot, c: char, ds: string, size: nat)
    requires InNumber(p) && IsDigit(c) && AllDigits(ds)
    ensures var n := NumberIn(p) * 10 + DigitValue(c);
            && n >= 0 && InNumber(WithNumber(p, n, 1)) && NumberIn(WithNumber(p, n, 1)) == n
            && AllDigits([c] + ds) && Accumulate(NumberIn(p), [c] + ds) == Accumulate(n, ds)
            && forall m: nat :: MayBe(WithNumber(p, n, 1), m) == MayBe(p, m)
                                && AfterLine(WithNumber(p, n, 1), m, size) == AfterLine(p, m, size + 1)
  {
    assert ([c] + ds)[1..] == ds;
  }

  /** What is read in a line with a number: digits, and a line end if the number may be. */
  lemma {:induction false} NumberForm(p: Snapshot, s: string, table: CommandTable, split: bool)
      returns (ds: string, rest: string)
    requires InNumber(p) && Ends(p, s, table, split)
    ensures s == ds + CRLF + rest && AllDigits(ds) && Accumulate(NumberIn(p), ds) >= 0
    ensures var n := Accumulate(NumberIn(p), ds);
            MayBe(p, n) && Ends(AfterLine(p, n, |ds| + 2), rest, table, split)
    decreases |s|
  {
    hide Step, Ends, MayBe, AfterLine, WithNumber;
    EndsTail(p, s, table, split);
    if IsDigit(s[0]) {
      DigitIsTaken(p, s[0], table, split);
      NotFinished(p, s[0]);
      OneDigitMore(p, s[0], [], 0);
      var more;
      more, rest := NumberForm(Step(p, s[0], table, split), s[1..], table, split);
      OneDigitMore(p, s[0], more, |more| + 2);
      ds := [s[0]] + more;
      assert s == [s[0]] + s[1..] == [s[0]] + (more + CRLF + rest) == ds + CRLF + rest;
    } else {
      LineForm(p, s, table, split);
      ds, rest := [], s[2..];
      assert s == CRLF + s[2..];
      assert [] + CRLF + rest == CRLF + rest;
    }
  }

  lemma {:induction false} NotFinished(p: Snapshot, c: char)
    requires InNumber(p) && IsDigit(c)
    ensures var n := NumberIn(p) * 10 + DigitValue(c);
            n >= 0 && WithNumber(p, n, 1).At? && WithNumber(p, n, 1).state != Finished
  {
  }

  lemma {:induction false} NumberIsTaken(p: Snapshot, ds: string, table: CommandTable, split: bool)
    requires InNumber(p) && AllDigits(ds) && MayBe(p, Accumulate(NumberIn(p), ds))
    ensures Accumulate(NumberIn(p), ds) >= 0
    ensures Run(p, ds + CRLF, table, split) == AfterLine(p, Accumulate(NumberIn(p), ds), |ds| + 2)
    ensures Inside(p, ds + CRLF, table, split)
  {
    hide Step;
    RunDigits(p, ds, table, split);
    var q := Run(p, ds, table, split);
    RunConcat(p, ds, CRLF, table, split);
    InsideBoth(p, ds, CRLF, table, split);
    LineEnd(q, '\r', '\n', table, split);
    RunCRLF(q, table, split);
    assert CRLF[1..] == ['\n'] && ['\n'][1..] == [];
  }

  // ----- bodies -----

  predicate InBody(p: Snapshot) {
    p.At? && (p.state == CmdBody || (p.state.Arg? && p.state.phase == Body)) && p.bodyCnt <= p.argLen
  }

  /** One string more has been read. */
  predicate OneMore(p: Snapshot, r: Snapshot) {
    && p.At? && r.At? && r.argNum == p.argNum && r.argCnt == p.argCnt + 1
    && if r.argCnt == r.argNum then r.state == Finished else r.state.Arg? && r.state.phase == Tag
  }

  lemma {:induction false} BodyByte(p: Snapshot, c: char, table: CommandTable, split: bool)
    requires InBody(p) && p.bodyCnt < p.argLen
    ensures var q := Step(p, c, table, split);
            && InBody(q) && q.state == p.state && q.bodyCnt == p.bodyCnt + 1 && q.argLen == p.argLen
            && q.argNum == p.argNum && q.argCnt == p.argCnt
  {
    hide IsKey, IsSplit, ArgDone, NameDone;
  }

  /** Behind a body only a line end is taken. */
  lemma {:induction false} BodyEnd(p: Snapshot, c: char, d: char, table: CommandTable, split: bool)
    requires InBody(p) && p.bodyCnt == p.argLen
    ensures var q := Step(p, c, table, split);
            var r := Step(q, d, table, split);
            && !(q.At? && q.state == Finished) && (q.At? <==> c == '\r')
            && (q.At? && r.At? <==> c == '\r' && d == '\n') && (q.At? && r.At? ==> OneMore(p, r))
  {
    hide IsKey, IsSplit, Lookup;
  }

  lemma {:induction false} BodyForm(p: Snapshot, s: string, table: CommandTable, split: bool)
      returns (text: string, rest: string, r: Snapshot)
    requires InBody(p) && Ends(p, s, table, split)
    ensures s == text + CRLF + rest && p.bodyCnt + |text| == p.argLen && OneMore(p, r)
    ensures if r.state == Finished then rest == [] else Ends(r, rest, table, split)
    decreases |s|
  {
    hide Step, Ends, OneMore;
    EndsTail(p, s, table, split);
    if p.bodyCnt < p.argLen {
      BodyByte(p, s[0], table, split);
      var q, more := Step(p, s[0], table, split), "";
      more, rest, r := BodyForm(q, s[1..], table, split);
      OneMoreBehind(p, q, r);
      text := [s[0]] + more;
      assert s == [s[0]] + s[1..] == [s[0]] + (more + CRLF + rest) == text + CRLF + rest;
    } else {
      BodyEndForm(p, s, table, split);
      text, rest, r := [], s[2..], Step(Step(p, s[0], table, split), s[1], table, split);
      assert s == CRLF + rest;
      assert [] + CRLF + rest == CRLF + rest;
    }
  }

  lemma {:induction false} BodyEndForm(p: Snapshot, s: string, table: CommandTable, split: bool)
    requires InBody(p) && Ends(p, s, table, split) && p.bodyCnt == p.argLen
    ensures |s| >= 2 && s[0] == '\r' && s[1] == '\n'
    ensures var r := Step(Step(p, s[0], table, split), s[1], table, split);
            OneMore(p, r) && if r.state == Finished then |s| == 2 else Ends(r, s[2..], table, split)
  {
    hide Step, Ends, OneMore;
    EndsTwice(p, s, table, split);
    BodyEnd(p, s[0], if |s| > 1 then s[1] else ' ', table, split);
  }

  lemma {:induction false} BodyIsTaken(p: Snapshot, text: string, table: CommandTable, split: bool)
    requires InBody(p) && p.bodyCnt + |text| == p.argLen
    ensures Inside(p, text + ['\r'], table, split)
    ensures var q := Run(p, text + ['\r'], table, split); OneMore(p, Step(q, '\n', table, split))
    decreases |text|
  {
    hide Step;
    if text == [] {
      BodyEnd(p, '\r', '\n', table, split);
      assert text + ['\r'] == ['\r'];
      RunOne(p, '\r', table, split);
    } else {
      BodyByte(p, text[0], table, split);
      BodyIsTaken(Step(p, text[0], table, split), text[1..], table, split);
      assert (text + ['\r'])[1..] == text[1..] + ['\r'];
    }
  }

  /** A body and its line end, and what follows. */
  lemma {:induction false} BodyEnds(p: Snapshot, text: string, rest: string, table: CommandTable, split: bool)
    requires InBody(p) && p.bodyCnt + |text| == p.argLen
    requires var r := Run(p, text + CRLF, table, split);
             if p.argCnt + 1 == p.argNum then rest == [] else Ends(r, rest, table, split)
    ensures Ends(p, text + CRLF + rest, table, split)
  {
    hide Step;
    var a := text + ['\r'];
    var q := Run(p, a, table, split);
    BodyIsTaken(p, text, table, split);
    RunConcat(p, a, ['\n'], table, split);
    RunOne(q, '\n', table, split);
    assert a + ['\n'] == text + CRLF;
    EndsBehind(p, a, ['\n'] + rest, table, split);
    assert a + (['\n'] + rest) == text + CRLF + rest;
    assert (['\n'] + rest)[1..] == rest;
    assert q.At? && q.state != Finished by { InsideEnd(p, a, table, split); }
  }

  lemma {:induction false} InsideEnd(p: Snapshot, a: string, table: CommandTable, split: bool)
    requires Inside(p, a, table, split)
    ensures var q := Run(p, a, table, split); q.At? && q.state != Finished
    decreases |a|
  {
    hide Step;
    if a != [] { InsideEnd(Step(p, a[0], table, split), a[1..], table, split); }
  }

  lemma {:induction false} BodyRun(p: Snapshot, text: string, table: CommandTable, split: bool)
    requires InBody(p) && p.bodyCnt + |text| == p.argLen
    ensures OneMore(p, Run(p, text + CRLF, table, split))
  {
    hide Step;
    var a := text + ['\r'];
    BodyIsTaken(p, text, table, split);
    RunConcat(p, a, ['\n'], table, split);
    RunOne(Run(p, a, table, split), '\n', table, split);
    assert a + ['\n'] == text + CRLF;
  }

  // ----- strings -----

  /** In front of a string. */
  predicate AtString(p: Snapshot) {
    p.At? && (p.state == CmdTag || (p.state.Arg? && p.state.phase == Tag))
  }

  /** Behind the dollar sign. */
  predicate Opened(p: Snapshot, q: Snapshot) {
    && AtString(p) && InNumber(q) && q.argLen == 0 && q.argNum == p.argNum && q.argCnt == p.argCnt
    && q.state == if p.state == CmdTag then CmdLen else Arg(p.state.lane, Len)
  }

  lemma {:induction false} TagByte(p: Snapshot, c: char, table: CommandTable, split: bool)
    requires AtString(p)
    ensures var q := Step(p, c, table, split);
            !(q.At? && q.state == Finished) && (q.At? <==> c == '$') && (q.At? ==> Opened(p, q))
  {
    hide IsKey, IsSplit;
  }

  /** Behind the line with the length. */
  lemma {:induction false} LineOpensBody(p: Snapshot, q: Snapshot, n: nat, size: nat)
    requires Opened(p, q)
    ensures NumberIn(q) == 0 && (MayBe(q, n) <==> p.state == CmdTag ==> 0 < n < 32)
    ensures var b := AfterLine(q, n, size);
            InBody(b) && b.bodyCnt == 0 && b.argLen == n && b.argNum == p.argNum && b.argCnt == p.argCnt
  {
  }

  predicate Fits(p: Snapshot, w: Written)
    requires p.At?
  {
    w.Good() && (p.state == CmdTag ==> 0 < |w.text| < 32)
  }

  /** One string is read off the front. */
  lemma {:induction false} StringForm(p: Snapshot, s: string, table: CommandTable, split: bool)
      returns (w: Written, rest: string, r: Snapshot)
    requires AtString(p) && Ends(p, s, table, split)
    ensures s == w.Line() + rest && Fits(p, w) && OneMore(p, r)
    ensures if r.state == Finished then rest == [] else Ends(r, rest, table, split)
  {
    hide Step, Ends, MayBe, AfterLine, Accumulate, InNumber, InBody, Opened, OneMore;
    TagByte(p, First(s), table, split);
    EndsTail(p, s, table, split);
    var q := Step(p, s[0], table, split);
    OpenedIsIn(p, q);
    var ds, more := NumberForm(q, s[1..], table, split);
    var n: nat := Accumulate(NumberIn(q), ds);
    LineOpensBody(p, q, n, |ds| + 2);
    var text;
    text, rest, r := BodyForm(AfterLine(q, n, |ds| + 2), more, table, split);
    w := Written(ds, text);
    LineAndRest(s, w, rest);
    OneMoreBehind(p, AfterLine(q, n, |ds| + 2), r);
  }

  function First(s: string): char { if s == [] then ' ' else s[0] }

  lemma {:induction false} OpenedIsIn(p: Snapshot, q: Snapshot)
    requires Opened(p, q)
    ensures InNumber(q) && NumberIn(q) == 0
  {
  }

  lemma {:induction false} LineAndRest(s: string, w: Written, rest: string)
    requires s != [] && s[0] == '$' && s[1..] == w.len + CRLF + (w.text + CRLF + rest)
    ensures s == w.Line() + rest
  {
    assert s == ['$'] + s[1..] == "$" + (w.len + CRLF + (w.text + CRLF + rest));
    assert w.Line() + rest == "$" + (w.len + CRLF + (w.text + CRLF + rest));
  }

  lemma {:induction false} OneMoreBehind(p: Snapshot, b: Snapshot, r: Snapshot)
    requires p.At? && b.At? && b.argNum == p.argNum && b.argCnt == p.argCnt && OneMore(b, r)
    ensures OneMore(p, r)
  {
  }

  /** One string is taken, whatever follows. */
  lemma {:induction false} StringEnds(p: Snapshot, w: Written, rest: string, table: CommandTable, split: bool)
      returns (r: Snapshot)
    requires AtString(p) && Fits(p, w)
    ensures OneMore(p, r)
    ensures (if r.state == Finished then rest == [] else Ends(r, rest, table, split))
            ==> Ends(p, w.Line() + rest, table, split)
  {
    hide Step, MayBe, AfterLine, Accumulate, Ends;
    TagByte(p, '$', table, split);
    var q := Step(p, '$', table, split);
    LineOpensBody(p, q, |w.text|, |w.len| + 2);
    NumberIsTaken(q, w.len, table, split);
    var b := AfterLine(q, |w.text|, |w.len| + 2);
    r := Run(b, w.text + CRLF, table, split);
    BodyRun(b, w.text, table, split);
    if if r.state == Finished then rest == [] else Ends(r, rest, table, split) {
      var a := w.len + CRLF;
      var c := w.text + CRLF + rest;
      BodyEnds(b, w.text, rest, table, split);
      EndsBehind(q, a, c, table, split);
      DollarEnds(p, a + c, table, split);
      assert w.Line() + rest == ['$'] + (a + c);
    }
  }

  lemma {:induction false} DollarEnds(p: Snapshot, s: string, table: CommandTable, split: bool)
    requires AtString(p) && Ends(Step(p, '$', table, split), s, table, split)
    ensures Ends(p, ['$'] + s, table, split)
  {
    hide Step;
    assert (['$'] + s)[1..] == s;
  }

  /** All strings that are left. */
  lemma {:induction false} StringsForm(p: Snapshot, s: string, table: CommandTable, split: bool)
      returns (ws: seq<Written>)
    requires AtString(p) && p.argCnt < p.argNum && Ends(p, s, table, split)
    ensures |ws| == p.argNum - p.argCnt && s == Lines(ws) && AllGood(ws) && Fits(p, ws[0])
    decreases |s|
  {
    hide Step, Ends;
    var w, rest, r := StringForm(p, s, table, split);
    if r.state == Finished {
      ws := [w];
      assert w.Line() + rest == w.Line() + Lines([]);
    } else {
      var more := StringsForm(r, rest, table, split);
      ws := [w] + more;
      assert ws[1..] == more;
    }
  }

  lemma {:induction false} StringsEnd(p: Snapshot, ws: seq<Written>, table: CommandTable, split: bool)
    requires AtString(p) && p.argCnt + |ws| == p.argNum && ws != [] && AllGood(ws) && Fits(p, ws[0])
    ensures Ends(p, Lines(ws), table, split)
    decreases |ws|
  {
    hide Step, Ends;
    var r := StringEnds(p, ws[0], Lines(ws[1..]), table, split);
    if |ws| > 1 { StringsEnd(r, ws[1..], table, split); }
  }

  // ----- commands -----

  lemma {:induction false} StarByte(o: nat, out: seq<Part>, c: char, table: CommandTable, split: bool)
    ensures var q := Step(Fresh(o, out), c, table, split);
            && (q.At? <==> c == '*')
            && (q.At? ==> InNumber(q) && q.state == ArgNum && q.argNum == 0)
  {
  }

  lemma {:induction false} CommandForm(o: nat, out: seq<Part>, s: string, table: CommandTable, split: bool)
      returns (count: string, ws: seq<Written>)
    requires Ends(Fresh(o, out), s, table, split)
    ensures Proper(count, ws) && s == Text(count, ws)
  {
    hide Step, Lines, Accumulate;
    var p := Fresh(o, out);
    StarByte(o, out, s[0], table, split);
    var q := Step(p, s[0], table, split);
    assert Ends(q, s[1..], table, split);
    var rest;
    count, rest := NumberForm(q, s[1..], table, split);
    ws := StringsForm(AfterLine(q, Accumulate(0, count), |count| + 2), rest, table, split);
    assert s == ['*'] + s[1..] == "*" + (count + CRLF + Lines(ws));
    assert Text(count, ws) == "*" + (count + CRLF + Lines(ws));
  }

  lemma {:induction false} CommandEnds(o: nat, out: seq<Part>, count: string, ws: seq<Written>,
          table: CommandTable, split: bool)
    requires Proper(count, ws)
    ensures Ends(Fresh(o, out), Text(count, ws), table, split)
  {
    hide Step, Lines, Accumulate;
    var p, a := Fresh(o, out), count + CRLF;
    StarByte(o, out, '*', table, split);
    var q := Step(p, '*', table, split);
    NumberIsTaken(q, count, table, split);
    StringsEnd(AfterLine(q, |ws|, |count| + 2), ws, table, split);
    EndsBehind(q, a, Lines(ws), table, split);
    assert Text(count, ws) == ['*'] + (a + Lines(ws));
    assert (['*'] + (a + Lines(ws)))[1..] == a + Lines(ws);
  }

  ghost predicate IsCommand(s: string) {
    exists count, ws :: Proper(count, ws) && s == Text(count, ws)
  }

  /** A parser that starts anew gets to the end with the last byte, and not before, exactly if the bytes are a
      command. */
  lemma {:induction false} TakenExactly(o: nat, out: seq<Part>, s: string, table: CommandTable, split: bool)
    ensures Ends(Fresh(o, out), s, table, split) <==> IsCommand(s)
  {
    if Ends(Fresh(o, out), s, table, split) {
      var count, ws := CommandForm(o, out, s, table, split);
    }
    if IsCommand(s) {
      var count, ws :| Proper(count, ws) && s == Text(count, ws);
      CommandEnds(o, out, count, ws, table, split);
    }
  }

  // ----- the beginnings of commands -----

  /** A name with a length that the parser of the model leaves alone. */
  predicate LongName(p: Snapshot) {
    p.At? && p.state in {CmdLen, CmdLenLF} && p.argLen >= 32
  }

  /** What the counters are inside a command. */
  predicate Sound(p: Snapshot) {
    p.At? && match p.state
    case Idle => true
    case ArgNum => true
    case ArgNumLF => p.argNum > 0
    case CmdTag => p.argNum > 0 && p.argCnt == 0
    case CmdLen => p.argNum > 0 && p.argCnt == 0
    case CmdLenLF => p.argNum > 0 && p.argCnt == 0 && p.argLen > 0
    case CmdBody => p.argNum > 0 && p.argCnt == 0 && p.bodyCnt <= p.argLen
    case CmdBodyLF => p.argNum > 0 && p.argCnt == 0
    case Arg(_, phase) => p.argCnt < p.argNum && (phase == Body ==> p.bodyCnt <= p.argLen)
    case Finished => true
  }

  lemma {:induction false} StepIsSound(p: Snapshot, c: char, table: CommandTable, split: bool)
    requires Sound(p) && p.state != Finished && Step(p, c, table, split).At?
    ensures Sound(Step(p, c, table, split))
  {
    hide IsKey, IsSplit, Lookup;
  }

  lemma {:induction false} InsideIsSound(p: Snapshot, s: string, table: CommandTable, split: bool)
    requires Sound(p) && Inside(p, s, table, split)
    ensures Sound(Run(p, s, table, split))
    decreases |s|
  {
    hide Step, Sound;
    if s != [] {
      StepIsSound(p, s[0], table, split);
      InsideIsSound(Step(p, s[0], table, split), s[1..], table, split);
    }
  }

  function Copies(w: Written, n: nat): (ws: seq<Written>)
    ensures |ws| == n && forall i :: 0 <= i < n ==> ws[i] == w
  {
    seq(n, _ => w)
  }

  lemma {:induction false} StringsCanEnd(p: Snapshot, table: CommandTable, split: bool) returns (t: string)
    requires AtString(p) && p.argCnt < p.argNum
    ensures Ends(p, t, table, split)
  {
    hide Ends;
    var ws := Copies(Written("1", "x"), p.argNum - p.argCnt);
    assert Accumulate(0, "1") == 1;
    StringsEnd(p, ws, table, split);
    t := Lines(ws);
  }

  lemma {:induction false} BodyCanEnd(p: Snapshot, table: CommandTable, split: bool) returns (t: string)
    requires InBody(p) && p.argCnt < p.argNum
    ensures Ends(p, t, table, split)
  {
    hide Ends, Step;
    var text := seq(p.argLen - p.bodyCnt, _ => 'x');
    BodyRun(p, text, table, split);
    var r, rest := Run(p, text + CRLF, table, split), "";
    if r.state != Finished { rest := StringsCanEnd(r, table, split); }
    BodyEnds(p, text, rest, table, split);
    t := text + CRLF + rest;
  }

  lemma {:induction false} NumberCanEnd(p: Snapshot, table: CommandTable, split: bool) returns (t: string)
    requires InNumber(p) && Sound(p) && !LongName(p)
    ensures Ends(p, t, table, split)
  {
    hide Ends, Step;
    var ds := if NumberIn(p) == 0 then "1" else "";
    assert Accumulate(0, "1") == 1;
    NumberIsTaken(p, ds, table, split);
    var q, rest := Run(p, ds + CRLF, table, split), "";
    if p.state == ArgNum { rest := StringsCanEnd(q, table, split); } else { rest := BodyCanEnd(q, table, split); }
    EndsBehind(p, ds + CRLF, rest, table, split) by { assert rest != [] by { EndsTail(q, rest, table, split); } }
    t := ds + CRLF + rest;
  }

  lemma {:induction false} ByteEnds(p: Snapshot, c: char, t: string, table: CommandTable, split: bool)
    requires p.At? && p.state != Finished
    requires var q := Step(p, c, table, split);
             q.At? && if q.state == Finished then t == [] else Ends(q, t, table, split)
    ensures Ends(p, [c] + t, table, split)
  {
    hide Step;
    assert ([c] + t)[1..] == t;
  }

  /** What one byte makes of the other states. */
  lemma {:induction false} OneByte(p: Snapshot, table: CommandTable, split: bool)
    requires Sound(p) && p.state != Finished && !LongName(p) && !AtString(p) && !InBody(p) && !InNumber(p)
    ensures var q := Step(p, if p.state == Idle then '*' else '\n', table, split);
            Sound(q) && !LongName(q) && (q.state == Finished || AtString(q) || InBody(q) || InNumber(q))
  {
    hide IsKey, IsSplit, Lookup;
  }

  lemma {:induction false} SomeEnd(p: Snapshot, table: CommandTable, split: bool) returns (t: string)
    requires Sound(p) && !LongName(p) && (p.state == Finished || AtString(p) || InBody(p) || InNumber(p))
    ensures if p.state == Finished then t == [] else Ends(p, t, table, split)
  {
    hide Ends;
    if p.state == Finished { t := []; }
    else if AtString(p) { t := StringsCanEnd(p, table, split); }
    else if InBody(p) { t := BodyCanEnd(p, table, split); }
    else { t := NumberCanEnd(p, table, split); }
  }

  lemma {:induction false} CanEnd(p: Snapshot, table: CommandTable, split: bool) returns (t: string)
    requires Sound(p) && p.state != Finished && !LongName(p)
    ensures Ends(p, t, table, split)
  {
    hide Ends, Step;
    if AtString(p) || InBody(p) || InNumber(p) {
      t := SomeEnd(p, table, split);
    } else {
      var c := if p.state == Idle then '*' else '\n';
      OneByte(p, table, split);
      var more := SomeEnd(Step(p, c, table, split), table, split);
      ByteEnds(p, c, more, table, split);
      t := [c] + more;
    }
  }

  lemma {:induction false} AccumulateGrows(v: nat, ds: string)
    requires AllDigits(ds)
    ensures Accumulate(v, ds) >= v
    decreases |ds|
  {
    if ds != [] { AccumulateGrows(v * 10 + DigitValue(ds[0]), ds[1..]); }
  }

  lemma {:induction false} LongNameNeverEnds(p: Snapshot, t: string, table: CommandTable, split: bool)
    requires LongName(p)
    ensures !Ends(p, t, table, split)
  {
    if Ends(p, t, table, split) {
      if p.state == CmdLen {
        var ds, rest := NumberForm(p, t, table, split);
        AccumulateGrows(p.argLen, ds);
      }
    }
  }

  ghost predicate BeginsCommand(s: string) {
    exists t :: t != [] && IsCommand(s + t)
  }

  /** The parser is inside a command exactly while the bytes can still become one: it stops at the first byte from
      which on no command begins with what it has read. */
  lemma {:induction false} InsideExactly(o: nat, out: seq<Part>, s: string, table: CommandTable, split: bool)
    ensures var p := Fresh(o, out);
            Inside(p, s, table, split) && !LongName(Run(p, s, table, split)) <==> BeginsCommand(s)
  {
    hide Step, Ends, Inside, LongName, IsCommand;
    var p := Fresh(o, out);
    var q := Run(p, s, table, split);
    if Inside(p, s, table, split) && !LongName(q) {
      InsideIsSound(p, s, table, split);
      InsideEnd(p, s, table, split);
      var t := CanEnd(q, table, split);
      EndsTail(q, t, table, split);
      EndsBehind(p, s, t, table, split);
      TakenExactly(o, out, s + t, table, split);
    }
    if BeginsCommand(s) {
      var t :| t != [] && IsCommand(s + t);
      TakenExactly(o, out, s + t, table, split);
      EndsBehind(p, s, t, table, split);
      if LongName(q) { LongNameNeverEnds(q, t, table, split); }
    }
  }
}
