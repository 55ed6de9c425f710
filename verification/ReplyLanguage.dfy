/** Which bytes the reply parser takes for a reply, and at which it stops (src/ResponseParser.cpp). */
module ReplyLanguage {
  import opened Bytes
  import opened ResponseMachine

  /** A reply as it is written, with its numbers as they stand. */
  datatype Written =
    | Line(mark: char, text: string)
    | Text(len: string, body: string)
    | Null(len: string)
    | Empty(count: string)
    | Many(count: string, elems: seq<Written>)

  function TextOf(w: Written): (s: string)
    ensures s != []
  {
    match w
    case Line(mark, text) => [mark] + (text + CRLF)
    case Text(len, body) => "$" + (len + CRLF + (body + CRLF))
    case Null(len) => "$" + (len + CRLF)
    case Empty(count) => "*" + (count + CRLF)
    case Many(count, elems) => "*" + (count + CRLF + Elements(elems))
  }

  function Elements(ws: seq<Written>): string {
    if ws == [] then [] else TextOf(ws[0]) + Elements(ws[1..])
  }

  // ----- numbers as they are written -----

  /** Digits and, where there may be one, at most one sign, wherever it stands. */
  predicate IsNumber(s: string, sign: bool) {
    s == [] || (if IsDigit(s[0]) then IsNumber(s[1..], sign) else s[0] == '-' && sign && IsNumber(s[1..], false))
  }

  function Digits(s: string): (d: string)
    ensures AllDigits(d)
  {
    if s == [] then [] else (if IsDigit(s[0]) then [s[0]] else []) + Digits(s[1..])
  }

  function Value(s: string): int {
    if '-' in s then -Accumulate(0, Digits(s)) else Accumulate(0, Digits(s))
  }

  // ----- what is a reply -----

  /** An element of an array, with room for so many arrays in it. */
  predicate GoodElement(w: Written, room: nat) {
    match w
    case Line(mark, text) => mark in "+-:" && '\r' !in text
    case Text(len, body) => AllDigits(len) && Accumulate(0, len) == |body|
    case Null(len) => IsNumber(len, true) && '-' in len
    case Empty(count) => AllDigits(count) && Accumulate(0, count) == 0
    case Many(count, elems) =>
      AllDigits(count) && Accumulate(0, count) == |elems| > 0 && room > 0
      && forall i :: 0 <= i < |elems| ==> GoodElement(elems[i], room - 1)
  }

  predicate Good(w: Written) {
    match w
    case Line(mark, text) => if mark == ':' then IsNumber(text, true) else mark in "+-" && '\r' !in text
    case Text(len, body) => IsNumber(len, true) && Value(len) == |body|
    case Null(len) => IsNumber(len, true) && Value(len) < 0
    case Empty(count) => IsNumber(count, true) && Value(count) <= 0
    case Many(count, elems) =>
      IsNumber(count, true) && Value(count) == |elems| > 0 && forall i :: 0 <= i < |elems| ==> GoodElement(elems[i], 7)
  }

  // ----- lines and bodies -----

  lemma {:induction false} LineForm(p: Snapshot, s: string) returns (t: string, rest: string)
    requires p.At? && p.state in {StatusHead, ErrorHead, LineBody} && Run(p, s).Done()
    ensures s == t + (['\r'] + rest) && '\r' !in t && Run(p, s) == Run(Step(p, '\r'), rest)
    decreases |s|
  {
    if s[0] == '\r' {
      t, rest := [], s[1..];
    } else {
      t, rest := LineForm(p, s[1..]);
      t := [s[0]] + t;
    }
  }

  lemma {:induction false} BodyForm(p: Snapshot, s: string) returns (t: string, rest: string)
    requires p.At? && p.state in {StringBody, SubStringBody} && p.strCnt <= p.strLen && Run(p, s).Done()
    ensures s == t + (['\r'] + rest) && p.strCnt + |t| == p.strLen
    ensures Run(p, s) == Run(Step(p.(strCnt := p.strLen), '\r'), rest)
    decreases |s|
  {
    var q := Step(p, s[0]);
    if p.strCnt < p.strLen {
      t, rest := BodyForm(q, s[1..]);
      t := [s[0]] + t;
    } else {
      if s[0] != '\r' { RunFailed(s[1..]); }
      t, rest := [], s[1..];
    }
  }

  /** Behind digits and at most one sign. */
  function WithNumber(p: Snapshot, t: string): Snapshot
    requires p.At?
  {
    p.(integer := Accumulate(p.integer, Digits(t)), sign := p.sign || '-' in t)
  }

  predicate MayFollow(p: Snapshot, t: string)
    requires p.At?
  {
    IsNumber(t, !p.sign && p.state != SubArrayLen)
  }

  predicate InNumber(p: Snapshot) {
    p.At? && p.state in {IntegerHead, StringHead, ArrayHead, SubStringLen, SubArrayLen}
  }

  lemma {:induction false} NumberByte(p: Snapshot, c: char)
    requires InNumber(p) && c != '\r'
    ensures Step(p, c).At? <==> IsDigit(c) || (c == '-' && !p.sign && p.state != SubArrayLen)
    ensures Step(p, c).At? ==> Step(p, c) == WithNumber(p, [c])
  {
    OneByte(p.integer, c);
  }

  lemma {:induction false} OneByte(v: int, c: char)
    ensures Digits([c]) == if IsDigit(c) then [c] else []
    ensures Accumulate(v, Digits([c])) == if IsDigit(c) then v * 10 + DigitValue(c) else v
    ensures '-' in [c] <==> c == '-'
  {
    assert Digits([]) == [];
    assert [c][1..] == [];
  }

  lemma {:induction false} NumberCons(p: Snapshot, c: char, t: string)
    requires InNumber(p) && (IsDigit(c) || (c == '-' && !p.sign && p.state != SubArrayLen))
    ensures var q := WithNumber(p, [c]);
            InNumber(q) && (MayFollow(q, t) <==> MayFollow(p, [c] + t)) && WithNumber(q, t) == WithNumber(p, [c] + t)
  {
    OneByte(p.integer, c);
    assert ([c] + t)[1..] == t && ([c] + t)[0] == c;
    if IsDigit(c) {
      assert ([c] + Digits(t))[1..] == Digits(t);
      assert Digits([c] + t) == [c] + Digits(t);
    } else {
      assert Digits([c] + t) == Digits(t);
    }
  }

  lemma {:induction false} NumberRuns(p: Snapshot, t: string)
    requires InNumber(p) && MayFollow(p, t)
    ensures Run(p, t) == WithNumber(p, t)
    decreases |t|
  {
    hide Step;
    if t != [] {
      assert t == [t[0]] + t[1..];
      NumberByte(p, t[0]);
      NumberCons(p, t[0], t[1..]);
      NumberRuns(Step(p, t[0]), t[1..]);
    }
  }

  lemma {:induction false} NumberForm(p: Snapshot, s: string) returns (t: string, rest: string)
    requires InNumber(p) && Run(p, s).Done()
    ensures s == t + (['\r'] + rest) && MayFollow(p, t) && Run(p, s) == Run(Step(WithNumber(p, t), '\r'), rest)
    decreases |s|
  {
    hide Step, WithNumber;
    if s[0] == '\r' {
      t, rest := [], s[1..];
      NothingMore(p);
    } else {
      NumberByte(p, s[0]);
      if !Step(p, s[0]).At? { RunFailed(s[1..]); }
      NumberCons(p, s[0], []);
      var more;
      more, rest := NumberForm(Step(p, s[0]), s[1..]);
      NumberCons(p, s[0], more);
      t := [s[0]] + more;
      assert s == [s[0]] + s[1..] == t + (['\r'] + rest);
    }
  }

  lemma {:induction false} NothingMore(p: Snapshot)
    requires p.At?
    ensures WithNumber(p, []) == p && IsNumber([], true) && IsNumber([], false)
  {
  }

  lemma {:induction false} NoSign(t: string, sign: bool)
    ensures IsNumber(t, sign) && '-' !in t ==> AllDigits(t)
    ensures IsNumber(t, false) ==> '-' !in t && AllDigits(t)
    ensures AllDigits(t) ==> IsNumber(t, sign) && '-' !in t && Digits(t) == t
  {
    if t != [] {
      NoSign(t[1..], sign);
      NoSign(t[1..], false);
      if AllDigits(t) { assert AllDigits(t[1..]) && t == [t[0]] + t[1..]; }
    }
  }

  lemma {:induction false} LineSplice(a: string, rest: string)
    ensures a + (['\r'] + (['\n'] + rest)) == a + CRLF + rest
  {
  }

  // ----- elements -----

  /** One element more is complete. */
  predicate Closed(stack: seq<Frame>, q: Snapshot) {
    q.At? && q.stack == CloseElement(stack) && q.state == if q.stack == [] then Finished else ArrayBody
  }

  predicate InArray(p: Snapshot) {
    p.At? && p.state == ArrayBody && 0 < |p.stack| <= 8
  }

  lemma {:induction false} CloseForm(p: Snapshot, s: string) returns (rest: string, q: Snapshot)
    requires p.At? && p.state == ElementLF && Run(p, s).Done()
    ensures s == ['\n'] + rest && Closed(p.stack, q) && Run(p, s) == Run(q, rest)
  {
    if s[0] != '\n' { RunFailed(s[1..]); }
    rest, q := s[1..], Step(p, s[0]);
  }

  lemma {:induction false} LineElement(p: Snapshot, s: string) returns (w: Written, rest: string, q: Snapshot)
    requires InArray(p) && Run(p, s).Done() && s[0] in "+-:"
    ensures s == TextOf(w) + rest && GoodElement(w, 8 - |p.stack|) && Closed(p.stack, q) && Run(p, s) == Run(q, rest)
  {
    var t, more := LineForm(p.To(LineBody), s[1..]);
    rest, q := CloseForm(p.To(ElementLF), more);
    w := Line(s[0], t);
    LineSplice(t, rest);
    assert s == [s[0]] + s[1..] == [s[0]] + (t + CRLF) + rest;
  }

  /** The length of a string in an array. */
  lemma {:induction false} LengthForm(p: Snapshot, s: string) returns (t: string, more: string, q: Snapshot)
    requires InArray(p) && Run(p, s).Done() && s[0] == '$'
    ensures s == ['$'] + (t + (['\r'] + more)) && IsNumber(t, true) && Run(p, s) == Run(q, more)
    ensures q.At? && q.stack == p.stack && q.state == if '-' in t then ElementLF else SubStringLenLF
    ensures '-' !in t ==> AllDigits(t) && q.integer == Accumulate(0, t) >= 0
  {
    var p1 := p.(sign := false, integer := 0, state := SubStringLen);
    t, more := NumberForm(p1, s[1..]);
    q := Step(WithNumber(p1, t), '\r');
    NoSign(t, true);
    if '-' !in t { AccumulateIsNat(0, t); }
    assert s == [s[0]] + s[1..];
  }

  /** Its bytes. */
  lemma {:induction false} SubBodyForm(p: Snapshot, s: string) returns (body: string, rest: string, q: Snapshot)
    requires p.At? && p.state == SubStringLenLF && p.integer >= 0 && Run(p, s).Done()
    ensures s == ['\n'] + (body + CRLF + rest) && |body| == p.integer && Closed(p.stack, q) && Run(p, s) == Run(q, rest)
  {
    if s[0] != '\n' { RunFailed(s[1..]); }
    var more;
    body, more := BodyForm(p.(strLen := p.integer, strCnt := 0, state := SubStringBody), s[1..]);
    rest, q := CloseForm(p.(strLen := p.integer, strCnt := 0, state := ElementLF), more);
    LineSplice(body, rest);
    assert s == [s[0]] + s[1..];
  }

  lemma {:induction false} HeadSplice(s: string, mark: char, t: string, rest: string)
    requires s == [mark] + (t + (['\r'] + (['\n'] + rest)))
    ensures s == [mark] + (t + CRLF + rest) == [mark] + (t + CRLF) + rest
  {
    LineSplice(t, rest);
  }

  lemma {:induction false} StringElement(p: Snapshot, s: string) returns (w: Written, rest: string, q: Snapshot)
    requires InArray(p) && Run(p, s).Done() && s[0] == '$'
    ensures s == TextOf(w) + rest && GoodElement(w, 8 - |p.stack|) && Closed(p.stack, q) && Run(p, s) == Run(q, rest)
  {
    hide Step, Run, Closed, IsNumber, Accumulate;
    var t, more, p1 := LengthForm(p, s);
    if '-' in t {
      rest, q := CloseForm(p1, more);
      w := Null(t);
      HeadSplice(s, '$', t, rest);
    } else {
      var body;
      body, rest, q := SubBodyForm(p1, more);
      w := Text(t, body);
      HeadSplice(s, '$', t, body + CRLF + rest);
      assert TextOf(w) + rest == ['$'] + (t + CRLF + (body + CRLF + rest));
    }
  }

  lemma {:induction false} AccumulateIsNat(v: nat, ds: string)
    requires AllDigits(ds)
    ensures Accumulate(v, ds) >= 0
    decreases |ds|
  {
    if ds != [] { AccumulateIsNat(v * 10 + DigitValue(ds[0]), ds[1..]); }
  }

  /** The number of elements of an array in an array. */
  lemma {:induction false} CountForm(p: Snapshot, s: string) returns (t: string, more: string, q: Snapshot)
    requires InArray(p) && Run(p, s).Done() && s[0] == '*'
    ensures s == ['*'] + (t + (['\r'] + more)) && AllDigits(t) && Run(p, s) == Run(q, more)
    ensures q.At? && q.stack == p.stack && q.integer == Accumulate(0, t) >= 0
    ensures q.state == if q.integer > 0 then SubArrayLenLF else ElementLF
  {
    var p1 := p.(integer := 0, state := SubArrayLen);
    t, more := NumberForm(p1, s[1..]);
    q := Step(WithNumber(p1, t), '\r');
    NoSign(t, false);
    AccumulateIsNat(0, t);
    assert s == [s[0]] + s[1..];
  }

  /** It is opened if there is room. */
  lemma {:induction false} OpenForm(p: Snapshot, s: string) returns (q: Snapshot)
    requires p.At? && p.state == SubArrayLenLF && Run(p, s).Done()
    ensures s != [] && s == ['\n'] + s[1..] && |p.stack| < 8 && Run(p, s) == Run(q, s[1..])
    ensures q.At? && q.state == ArrayBody && q.stack == p.stack + [Frame(p.integer, 0)]
  {
    if s[0] != '\n' || |p.stack| >= 8 { RunFailed(s[1..]); }
    q := Step(p, s[0]);
  }

  lemma {:induction false} ArrayElement(p: Snapshot, s: string) returns (w: Written, rest: string, q: Snapshot)
    requires InArray(p) && Run(p, s).Done() && s[0] == '*'
    ensures s == TextOf(w) + rest && GoodElement(w, 8 - |p.stack|) && Closed(p.stack, q) && Run(p, s) == Run(q, rest)
    decreases |s|, 0
  {
    hide Step, Run, Closed, Accumulate;
    var t, more, p1 := CountForm(p, s);
    if p1.state == ElementLF {
      rest, q := CloseForm(p1, more);
      w := Empty(t);
      HeadSplice(s, '*', t, rest);
    } else {
      var p2 := OpenForm(p1, more);
      var ws;
      ws, rest, q := ElementsForm(p2, more[1..], p.stack, p1.integer, 0);
      w := Many(t, ws);
      HeadSplice(s, '*', t, Elements(ws) + rest);
      assert TextOf(w) + rest == ['*'] + (t + CRLF + (Elements(ws) + rest));
    }
  }

  lemma {:induction false} ElementForm(p: Snapshot, s: string) returns (w: Written, rest: string, q: Snapshot)
    requires InArray(p) && Run(p, s).Done()
    ensures s == TextOf(w) + rest && GoodElement(w, 8 - |p.stack|) && Closed(p.stack, q) && Run(p, s) == Run(q, rest)
    decreases |s|, 1
  {
    if s[0] in "+-:" { w, rest, q := LineElement(p, s); }
    else if s[0] == '$' { w, rest, q := StringElement(p, s); }
    else if s[0] == '*' { w, rest, q := ArrayElement(p, s); }
    else { RunFailed(s[1..]); }
  }

  /** The elements that an open array has yet to get. */
  lemma {:induction false} ElementsForm(p: Snapshot, s: string, outer: seq<Frame>, n: nat, k: nat)
      returns (ws: seq<Written>, rest: string, q: Snapshot)
    requires InArray(p) && p.stack == outer + [Frame(n, k)] && k < n && Run(p, s).Done()
    ensures |ws| == n - k && (forall i :: 0 <= i < |ws| ==> GoodElement(ws[i], 8 - |p.stack|))
    ensures s == Elements(ws) + rest && Closed(outer, q) && Run(p, s) == Run(q, rest)
    decreases |s|, 2
  {
    var w, more;
    w, more, q := ElementForm(p, s);
    assert p.stack[..|p.stack| - 1] == outer;
    if k + 1 == n {
      ws, rest := [w], more;
      assert Elements(ws) == TextOf(w) + Elements([]);
    } else {
      var ws1;
      ws1, rest, q := ElementsForm(q, more, outer, n, k + 1);
      ws := [w] + ws1;
      assert ws[1..] == ws1;
      assert TextOf(w) + (Elements(ws1) + rest) == TextOf(w) + Elements(ws1) + rest;
    }
  }

  // ----- every good element is taken -----

  lemma {:induction false} ByteRuns(p: Snapshot, c: char, t: string)
    ensures Run(p, [c] + t) == Run(Step(p, c), t)
  {
    hide Step;
    assert ([c] + t)[1..] == t;
  }

  lemma {:induction false} LineEndRuns(p: Snapshot, t: string, q: Snapshot, rest: string)
    requires Run(p, t) == q
    ensures Run(p, t + CRLF + rest) == Run(Step(Step(q, '\r'), '\n'), rest)
  {
    hide Step, Run;
    LineSplice(t, rest);
    RunConcat(p, t, ['\r'] + (['\n'] + rest));
    ByteRuns(q, '\r', ['\n'] + rest);
    ByteRuns(Step(q, '\r'), '\n', rest);
  }

  /** A mark, a number and a line end. */
  lemma {:induction false} HeadRuns(p: Snapshot, mark: char, t: string, rest: string)
    requires InNumber(Step(p, mark)) && MayFollow(Step(p, mark), t)
    ensures Run(p, [mark] + (t + CRLF + rest)) == Run(Step(Step(WithNumber(Step(p, mark), t), '\r'), '\n'), rest)
  {
    hide Step, Run;
    ByteRuns(p, mark, t + CRLF + rest);
    NumberRuns(Step(p, mark), t);
    LineEndRuns(Step(p, mark), t, Run(Step(p, mark), t), rest);
  }

  lemma {:induction false} LineRuns(p: Snapshot, mark: char, t: string)
    requires Step(p, mark).At? && Step(p, mark).state in {StatusHead, ErrorHead, LineBody} && '\r' !in t
    ensures Run(p, [mark] + (t + CRLF)) == Step(Step(Step(p, mark), '\r'), '\n')
  {
    hide Step;
    ByteRuns(p, mark, t + CRLF);
    RunLine(Step(p, mark), t);
    LineEndRuns(Step(p, mark), t, Step(p, mark), []);
    assert t + CRLF + [] == t + CRLF;
  }

  lemma {:induction false} BodyRuns(p: Snapshot, body: string)
    requires p.At? && p.state in {StringBody, SubStringBody} && p.strCnt == 0 && p.strLen == |body|
    ensures Run(p, body + CRLF) == Step(Step(p.(strCnt := |body|), '\r'), '\n')
  {
    hide Step;
    RunBody(p, body);
    LineEndRuns(p, body, p.(strCnt := |body|), []);
    assert body + CRLF + [] == body + CRLF;
  }

  lemma {:induction false} NullRuns(p: Snapshot, len: string)
    requires InArray(p) && IsNumber(len, true) && '-' in len
    ensures Closed(p.stack, Run(p, TextOf(Null(len))))
  {
    hide IsNumber, Run;
    HeadRuns(p, '$', len, []);
    RunNothing(Step(Step(WithNumber(Step(p, '$'), len), '\r'), '\n'));
    assert len + CRLF + [] == len + CRLF;
  }

  /** The line with the length of a string that is there. */
  lemma {:induction false} LengthRuns(p: Snapshot, len: string, n: nat, rest: string) returns (q: Snapshot)
    requires InArray(p) && AllDigits(len) && Accumulate(0, len) == n
    ensures Run(p, "$" + (len + CRLF + rest)) == Run(q, rest)
    ensures q.At? && q.state == SubStringBody && q.strCnt == 0 && q.strLen == n && q.stack == p.stack
  {
    hide IsNumber, Run;
    NoSign(len, true);
    HeadRuns(p, '$', len, rest);
    q := Step(Step(WithNumber(Step(p, '$'), len), '\r'), '\n');
  }

  lemma {:induction false} StringRuns(p: Snapshot, len: string, body: string)
    requires InArray(p) && AllDigits(len) && Accumulate(0, len) == |body|
    ensures Closed(p.stack, Run(p, TextOf(Text(len, body))))
  {
    hide Run;
    var q := LengthRuns(p, len, |body|, body + CRLF);
    BodyRuns(q, body);
  }

  lemma {:induction false} EmptyRuns(p: Snapshot, count: string)
    requires InArray(p) && AllDigits(count) && Accumulate(0, count) == 0
    ensures Closed(p.stack, Run(p, TextOf(Empty(count))))
  {
    NoSign(count, false);
    HeadRuns(p, '*', count, []);
    assert count + CRLF + [] == count + CRLF;
  }

  lemma {:induction false} CountRuns(p: Snapshot, count: string, n: nat, rest: string) returns (q: Snapshot)
    requires InArray(p) && AllDigits(count) && Accumulate(0, count) == n > 0 && |p.stack| < 8
    ensures Run(p, "*" + (count + CRLF + rest)) == Run(q, rest)
    ensures q.At? && q.state == ArrayBody && q.stack == p.stack + [Frame(n, 0)]
  {
    NoSign(count, false);
    HeadRuns(p, '*', count, rest);
    q := Step(Step(WithNumber(Step(p, '*'), count), '\r'), '\n');
  }

  lemma {:induction false} ElementRuns(p: Snapshot, w: Written)
    requires InArray(p) && GoodElement(w, 8 - |p.stack|)
    ensures Closed(p.stack, Run(p, TextOf(w)))
    decreases w, 1
  {
    match w
    case Line(mark, text) => LineRuns(p, mark, text);
    case Text(len, body) => StringRuns(p, len, body);
    case Null(len) => NullRuns(p, len);
    case Empty(count) => EmptyRuns(p, count);
    case Many(count, elems) =>
      hide Step, Run;
      var q := CountRuns(p, count, |elems|, Elements(elems));
      ElementsRun(q, elems, p.stack, |elems|, 0);
  }

  lemma {:induction false} ElementsRun(p: Snapshot, ws: seq<Written>, outer: seq<Frame>, n: nat, k: nat)
    requires InArray(p) && p.stack == outer + [Frame(n, k)] && k + |ws| == n && ws != []
    requires forall i :: 0 <= i < |ws| ==> GoodElement(ws[i], 8 - |p.stack|)
    ensures Closed(outer, Run(p, Elements(ws)))
    decreases ws, 0
  {
    hide Step, GoodElement, TextOf;
    var q := Run(p, TextOf(ws[0]));
    ElementRuns(p, ws[0]);
    RunConcat(p, TextOf(ws[0]), Elements(ws[1..]));
    assert p.stack[..|p.stack| - 1] == outer;
    if |ws| > 1 { ElementsRun(q, ws[1..], outer, n, k + 1); }
  }

  // ----- replies -----

  lemma {:induction false} DoneIsLast(q: Snapshot, rest: string)
    requires q.Done() && Run(q, rest).Done()
    ensures rest == []
  {
    if rest != [] { RunFailed(rest[1..]); }
  }

  /** The line end of a reply of one line. */
  lemma {:induction false} LastForm(p: Snapshot, s: string)
    requires p.At? && p.state in {HeadLF, StringBodyLF} && Run(p, s).Done() && Step(p, '\n').Done()
    ensures s == ['\n']
  {
    if s[0] != '\n' { RunFailed(s[1..]); }
    DoneIsLast(Step(p, s[0]), s[1..]);
  }

  lemma {:induction false} LineReply(s: string) returns (w: Written)
    requires s != [] && s[0] in "+-" && Run(Start, s).Done()
    ensures Good(w) && s == TextOf(w)
  {
    var p := Step(Start, s[0]);
    var t, more := LineForm(p, s[1..]);
    LastForm(p.To(HeadLF), more);
    w := Line(s[0], t);
    assert s == [s[0]] + s[1..] == [s[0]] + (t + CRLF);
  }

  /** The first line of a reply with a number. */
  lemma {:induction false} HeadForm(s: string) returns (t: string, more: string, q: Snapshot)
    requires s != [] && s[0] in ":$*" && Run(Start, s).Done()
    ensures s == [s[0]] + (t + (['\r'] + more)) && IsNumber(t, true) && Run(Start, s) == Run(q, more)
    ensures q.At? && q.state == HeadLF && q.integer == Value(t) && q.stack == []
    ensures q.kind == match s[0] case ':' => KInteger case '$' => KString case _ => KArray
  {
    var p := Step(Start, s[0]);
    t, more := NumberForm(p, s[1..]);
    q := Step(WithNumber(p, t), '\r');
    assert s == [s[0]] + s[1..];
  }

  lemma {:induction false} StringReply(s: string) returns (w: Written)
    requires s != [] && s[0] == '$' && Run(Start, s).Done()
    ensures Good(w) && s == TextOf(w)
  {
    hide IsNumber, Value;
    var t, more, q := HeadForm(s);
    if q.integer < 0 {
      LastForm(q, more);
      w := Null(t);
      assert s == "$" + (t + CRLF);
    } else {
      if more[0] != '\n' { RunFailed(more[1..]); }
      var b := q.(strLen := q.integer, strCnt := 0, state := StringBody);
      var body, last := BodyForm(b, more[1..]);
      LastForm(b.(state := StringBodyLF), last);
      w := Text(t, body);
      assert more == ['\n'] + (body + CRLF);
      HeadSplice(s, '$', t, body + CRLF);
    }
  }

  lemma {:induction false} ArrayReply(s: string) returns (w: Written)
    requires s != [] && s[0] == '*' && Run(Start, s).Done()
    ensures Good(w) && s == TextOf(w)
  {
    hide IsNumber, Value, GoodElement;
    var t, more, q := HeadForm(s);
    if q.integer <= 0 {
      LastForm(q, more);
      w := Empty(t);
      assert s == "*" + (t + CRLF);
    } else {
      var ws := ManyForm(q, more);
      w := Many(t, ws);
      HeadSplice(s, '*', t, Elements(ws));
    }
  }

  /** The elements of a reply. */
  lemma {:induction false} ManyForm(p: Snapshot, s: string) returns (ws: seq<Written>)
    requires p.At? && p.state == HeadLF && p.kind == KArray && p.integer > 0 && p.stack == [] && Run(p, s).Done()
    ensures s == ['\n'] + Elements(ws) && |ws| == p.integer && forall i :: 0 <= i < |ws| ==> GoodElement(ws[i], 7)
  {
    hide GoodElement, Elements;
    if s[0] != '\n' { RunFailed(s[1..]); }
    var q := p.(stack := [Frame(p.integer, 0)], state := ArrayBody);
    assert s == ['\n'] + s[1..] && q.stack == [] + [Frame(p.integer, 0)];
    var rest, r;
    ws, rest, r := ElementsForm(q, s[1..], [], p.integer, 0);
    DoneIsLast(r, rest);
  }

  lemma {:induction false} ReplyForm(s: string) returns (w: Written)
    requires Run(Start, s).Done()
    ensures Good(w) && s == TextOf(w)
  {
    hide Good, TextOf;
    if s[0] in "+-" { w := LineReply(s); }
    else if s[0] == '$' { w := StringReply(s); }
    else if s[0] == '*' { w := ArrayReply(s); }
    else if s[0] == ':' { w := IntegerReply(s); }
    else { RunFailed(s[1..]); }
  }

  lemma {:induction false} IntegerReply(s: string) returns (w: Written)
    requires s != [] && s[0] == ':' && Run(Start, s).Done()
    ensures Good(w) && s == TextOf(w)
  {
    hide IsNumber, Value;
    var t, more, q := HeadForm(s);
    LastForm(q, more);
    w := Line(':', t);
    assert s == ":" + (t + CRLF);
  }

  lemma {:induction false} ReplyHeadRuns(mark: char, t: string, rest: string) returns (q: Snapshot)
    requires mark in ":$*" && IsNumber(t, true)
    ensures Run(Start, [mark] + (t + CRLF + rest)) == Run(Step(q, '\n'), rest)
    ensures q.At? && q.state == HeadLF && q.integer == Value(t) && q.stack == []
    ensures q.kind == match mark case ':' => KInteger case '$' => KString case _ => KArray
  {
    HeadRuns(Start, mark, t, rest);
    q := Step(WithNumber(Step(Start, mark), t), '\r');
  }

  lemma {:induction false} ReplyRuns(w: Written)
    requires Good(w)
    ensures Run(Start, TextOf(w)).Done()
  {
    hide IsNumber, Value, GoodElement, Run;
    match w
    case Line(mark, text) =>
      if mark == ':' { NumberReplyRuns(':', text); } else { LineRuns(Start, mark, text); }
    case Null(len) => NumberReplyRuns('$', len);
    case Empty(count) => NumberReplyRuns('*', count);
    case Text(len, body) =>
      var q := ReplyHeadRuns('$', len, body + CRLF);
      BodyRuns(Step(q, '\n'), body);
    case Many(count, elems) =>
      var q := ReplyHeadRuns('*', count, Elements(elems));
      assert Step(q, '\n').stack == [] + [Frame(|elems|, 0)];
      ElementsRun(Step(q, '\n'), elems, [], |elems|, 0);
  }

  lemma {:induction false} NumberReplyRuns(mark: char, t: string)
    requires mark in ":$*" && IsNumber(t, true)
    requires (mark == '$' ==> Value(t) < 0) && (mark == '*' ==> Value(t) <= 0)
    ensures Run(Start, [mark] + (t + CRLF)).Done()
  {
    hide IsNumber, Value;
    var q := ReplyHeadRuns(mark, t, []);
    assert t + CRLF + [] == t + CRLF;
  }

  ghost predicate IsReply(s: string) {
    exists w :: Good(w) && s == TextOf(w)
  }

  /** A parser that starts anew gets to the end with the last byte exactly if the bytes are a reply. */
  lemma {:induction false} TakenExactly(s: string)
    ensures Run(Start, s).Done() <==> IsReply(s)
  {
    hide Good, TextOf;
    if Run(Start, s).Done() {
      var w := ReplyForm(s);
    }
    if IsReply(s) {
      var w :| Good(w) && s == TextOf(w);
      ReplyRuns(w);
    }
  }

  // ----- the beginnings of replies -----

  /** An array inside eight others has been started that has elements. */
  predicate TooDeep(p: Snapshot) {
    p.At? && |p.stack| >= 8 && (p.state == SubArrayLenLF || (p.state == SubArrayLen && p.integer > 0))
  }

  predicate SoundStack(stack: seq<Frame>) {
    |stack| <= 8 && forall i :: 0 <= i < |stack| ==> 0 <= stack[i].cnt < stack[i].num
  }

  /** What the counters are inside a reply. */
  predicate Sound(p: Snapshot) {
    && p.At? && SoundStack(p.stack)
    && (p.state in {ArrayBody, LineBody, SubStringLen, SubStringLenLF, SubStringBody, SubArrayLen, SubArrayLenLF,
                    ElementLF}
        <==> p.stack != [])
    && (p.state in {SubStringLen, SubStringLenLF, SubArrayLen, Idle, StringHead, IntegerHead, ArrayHead} ==>
          p.integer >= 0)
    && (p.state == SubArrayLenLF ==> p.integer > 0)
    && (p.state in {StringBody, SubStringBody} ==> p.strCnt <= p.strLen)
    && (p.state in {StatusHead, ErrorHead, IntegerHead, StringHead, ArrayHead, HeadLF} ==> p.kind != KNone)
  }

  lemma {:induction false} CloseIsSound(stack: seq<Frame>)
    requires SoundStack(stack)
    ensures SoundStack(CloseElement(stack))
    decreases |stack|
  {
    if stack != [] { CloseIsSound(stack[..|stack| - 1]); }
  }

  lemma {:induction false} StepIsSound(p: Snapshot, c: char)
    requires Sound(p) && Step(p, c).At?
    ensures Sound(Step(p, c))
  {
    if p.stack == [] { OuterIsSound(p, c); } else { InnerIsSound(p, c); }
  }

  lemma {:induction false} OuterIsSound(p: Snapshot, c: char)
    requires Sound(p) && Step(p, c).At? && p.stack == []
    ensures Sound(Step(p, c))
  {
    hide CloseElement;
  }

  lemma {:induction false} InnerIsSound(p: Snapshot, c: char)
    requires Sound(p) && Step(p, c).At? && p.stack != []
    ensures Sound(Step(p, c))
  {
    CloseIsSound(p.stack);
    hide CloseElement;
  }

  lemma {:induction false} RunIsSound(p: Snapshot, s: string)
    requires Sound(p) && Run(p, s).At?
    ensures Sound(Run(p, s))
    decreases |s|
  {
    hide Step, Sound;
    if s != [] {
      if Step(p, s[0]).Failed? { RunFailed(s[1..]); }
      StepIsSound(p, s[0]);
      RunIsSound(Step(p, s[0]), s[1..]);
    }
  }

  /** Arrays that are open get empty lines until they are full. */
  lemma {:induction false} StackCanEnd(p: Snapshot) returns (t: string)
    requires p.At? && p.state == ArrayBody && p.stack != [] && SoundStack(p.stack)
    ensures Run(p, t).Done()
    decreases |p.stack|, p.stack[|p.stack| - 1].num - p.stack[|p.stack| - 1].cnt
  {
    hide Step, Run;
    var q := Run(p, "+" + ("" + CRLF));
    ElementRuns(p, Line('+', ""));
    CloseIsSound(p.stack);
    t := "+" + ("" + CRLF);
    if q.state != Finished {
      CloseShrinks(p.stack);
      var more := StackCanEnd(q);
      RunConcat(p, t, more);
      t := t + more;
    }
  }

  lemma {:induction false} CloseShrinks(stack: seq<Frame>)
    requires stack != [] && CloseElement(stack) != []
    ensures var (r, top) := (CloseElement(stack), stack[|stack| - 1]);
            |r| < |stack| || (|r| == |stack| && r[|r| - 1] == Frame(top.num, top.cnt + 1))
  {
  }

  /** A byte that leads on, and how far it still is. */
  function LeadsOn(p: Snapshot): char
    requires p.At?
  {
    match p.state
    case Idle => '+'
    case HeadLF => '\n'
    case StringBodyLF => '\n'
    case SubStringLenLF => '\n'
    case SubArrayLenLF => '\n'
    case ElementLF => '\n'
    case StringBody => if p.strCnt < p.strLen then 'x' else '\r'
    case SubStringBody => if p.strCnt < p.strLen then 'x' else '\r'
    case _ => '\r'
  }

  function Rank(p: Snapshot): nat
    requires p.At?
  {
    match p.state
    case Idle => 9
    case HeadLF => 6
    case StringBody => 5
    case StringBodyLF => 4
    case SubStringLen => 8
    case SubArrayLen => 8
    case SubStringLenLF => 6
    case SubArrayLenLF => 6
    case SubStringBody => 5
    case ElementLF => 3
    case ArrayBody => 2
    case Finished => 1
    case _ => 8
  }

  lemma {:induction false} NextByte(p: Snapshot)
    requires Sound(p) && p.Running() && !TooDeep(p) && p.state != ArrayBody
    ensures var q := Step(p, LeadsOn(p));
            && Sound(q) && !TooDeep(q)
            && (Rank(q) < Rank(p) || (Rank(q) == Rank(p) && 0 <= q.strLen - q.strCnt < p.strLen - p.strCnt))
  {
    RankFalls(p);
    StepIsSound(p, LeadsOn(p));
  }

  lemma {:induction false} RankFalls(p: Snapshot)
    requires Sound(p) && p.Running() && !TooDeep(p) && p.state != ArrayBody
    ensures var q := Step(p, LeadsOn(p));
            && q.At? && !TooDeep(q)
            && (Rank(q) < Rank(p) || (Rank(q) == Rank(p) && 0 <= q.strLen - q.strCnt < p.strLen - p.strCnt))
  {
    hide CloseElement, SoundStack;
  }

  lemma {:induction false} CanEnd(p: Snapshot) returns (t: string)
    requires Sound(p) && !TooDeep(p)
    ensures Run(p, t).Done()
    decreases Rank(p), p.strLen - p.strCnt
  {
    hide Step, TooDeep, Rank, LeadsOn;
    if p.state == Finished {
      t := [];
    } else if p.state == ArrayBody {
      t := StackCanEnd(p);
    } else {
      NextByte(p);
      var more := CanEnd(Step(p, LeadsOn(p)));
      t := [LeadsOn(p)] + more;
    }
  }

  /** Nothing leads on from an array that is too deep. */
  lemma {:induction false} TooDeepNeverEnds(p: Snapshot, t: string)
    requires TooDeep(p)
    ensures !Run(p, t).Done()
    decreases |t|
  {
    if t != [] {
      if Step(p, t[0]).Failed? { RunFailed(t[1..]); } else { TooDeepNeverEnds(Step(p, t[0]), t[1..]); }
    }
  }

  ghost predicate BeginsReply(s: string) {
    exists t :: t != [] && IsReply(s + t)
  }

  /** The parser is inside a reply exactly while the bytes can still become one, but that it notices an array that is
      too deep only behind the number of its elements. */
  lemma {:induction false} InsideExactly(s: string)
    ensures Run(Start, s).Running() && !TooDeep(Run(Start, s)) <==> BeginsReply(s)
  {
    hide Step, TooDeep, IsReply;
    var p := Run(Start, s);
    if p.Running() && !TooDeep(p) {
      RunIsSound(Start, s);
      var t := CanEnd(p);
      RunConcat(Start, s, t);
      TakenExactly(s + t);
      assert t != [] && IsReply(s + t);
    }
    if BeginsReply(s) {
      var t :| t != [] && IsReply(s + t);
      TakenExactly(s + t);
      RunConcat(Start, s, t);
      if p.Failed? { RunFailed(t); }
      if p.Done() { DoneIsLast(p, t); }
      if TooDeep(p) { TooDeepNeverEnds(p, t); }
    }
  }
}
