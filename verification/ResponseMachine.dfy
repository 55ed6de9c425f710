/** The reply parser of a server connection, one byte at a time (src/ResponseParser.cpp). */
module ResponseMachine {
  import opened Bytes
  import opened Resp

  const MAX_ARRAY_DEPTH := 8

  datatype Kind = KNone | KStatus | KError | KInteger | KString | KArray

  datatype State =
    | Idle | StatusHead | ErrorHead | IntegerHead | StringHead | ArrayHead | HeadLF
    | ArrayBody | StringBody | StringBodyLF | LineBody
    | SubStringLen | SubStringLenLF | SubStringBody
    | SubArrayLen | SubArrayLenLF | ElementLF | Finished

  /** Status codes of one `parse` call. */
  datatype Outcome = Normal | Partial | Complete | ParseError

  /** An array that is still open: its length and how many elements are complete. */
  datatype Frame = Frame(num: int, cnt: int)

  /** The parser between two bytes. */
  datatype Snapshot =
    | Failed
    | At(state: State, kind: Kind, integer: int, strLen: int, strCnt: int, stack: seq<Frame>, sign: bool)
  {
    predicate Done() { At? && state == Finished }
    predicate Running() { At? && state != Finished }
    function To(s: State): Snapshot requires At? { this.(state := s) }
  }

  const Start := At(Idle, KNone, 0, 0, 0, [], false)

  /** The element on top of the stack is complete: closes every array that this completes. */
  function CloseElement(stack: seq<Frame>): (r: seq<Frame>)
    ensures |r| <= |stack|
  {
    if stack == [] then [] else
    var top := stack[|stack| - 1];
    var rest := stack[..|stack| - 1];
    if top.cnt + 1 == top.num then CloseElement(rest) else rest + [Frame(top.num, top.cnt + 1)]
  }

  function StepIdle(p: Snapshot, ch: char): Snapshot
    requires p.At?
  {
    match ch
    case '+' => p.(kind := KStatus, state := StatusHead)
    case '-' => p.(kind := KError, state := ErrorHead)
    case ':' => p.(kind := KInteger, state := IntegerHead)
    case '$' => p.(kind := KString, state := StringHead)
    case '*' => p.(kind := KArray, state := ArrayHead)
    case _ => Failed
  }

  function StepHeadLF(p: Snapshot, ch: char): Snapshot
    requires p.At?
  {
    if ch != '\n' then Failed else
    match p.kind
    case KStatus => p.To(Finished)
    case KError => p.To(Finished)
    case KInteger => p.To(Finished)
    case KString =>
      if p.integer < 0 then p.To(Finished) else p.(strLen := p.integer, strCnt := 0, state := StringBody)
    case KArray =>
      if p.integer <= 0 then p.To(Finished) else p.(stack := [Frame(p.integer, 0)], state := ArrayBody)
    case KNone => Failed
  }

  function StepNumberHead(p: Snapshot, ch: char): Snapshot
    requires p.At?
  {
    if IsDigit(ch) then p.(integer := p.integer * 10 + DigitValue(ch))
    else if ch == '\r' then p.(integer := if p.sign then -p.integer else p.integer, state := HeadLF)
    else if ch == '-' && !p.sign then p.(sign := true)
    else Failed
  }

  function StepArrayBody(p: Snapshot, ch: char): Snapshot
    requires p.At?
  {
    match ch
    case '+' => p.To(LineBody)
    case '-' => p.To(LineBody)
    case ':' => p.To(LineBody)
    case '$' => p.(sign := false, integer := 0, state := SubStringLen)
    case '*' => p.(integer := 0, state := SubArrayLen)
    case _ => Failed
  }

  function StepSubStringLen(p: Snapshot, ch: char): Snapshot
    requires p.At?
  {
    if IsDigit(ch) then p.(integer := p.integer * 10 + DigitValue(ch))
    else if ch == '\r' then p.To(if p.sign then ElementLF else SubStringLenLF)
    else if ch == '-' && !p.sign then p.(sign := true)
    else Failed
  }

  function StepSubArrayLen(p: Snapshot, ch: char): Snapshot
    requires p.At?
  {
    if IsDigit(ch) then p.(integer := p.integer * 10 + DigitValue(ch))
    else if ch == '\r' then p.To(if p.integer > 0 then SubArrayLenLF else ElementLF)
    else Failed
  }

  function StepSubArrayLenLF(p: Snapshot, ch: char): Snapshot
    requires p.At?
  {
    if ch == '\n' && |p.stack| < MAX_ARRAY_DEPTH
    then p.(stack := p.stack + [Frame(p.integer, 0)], state := ArrayBody)
    else Failed
  }

  function StepBody(p: Snapshot, ch: char, after: State): Snapshot
    requires p.At?
  {
    if p.strCnt < p.strLen then p.(strCnt := p.strCnt + 1)
    else if ch == '\r' then p.(strCnt := 0, state := after)
    else Failed
  }

  function StepElementLF(p: Snapshot, ch: char): Snapshot
    requires p.At?
  {
    if ch != '\n' then Failed else
    var stack := CloseElement(p.stack);
    p.(stack := stack, state := if stack == [] then Finished else ArrayBody)
  }

  /** One byte. Bodies are counted byte by byte here; `Parse` skips over them in bulk. */
  function Step(p: Snapshot, ch: char): Snapshot {
    if p.Failed? then Failed else
    match p.state
    case Idle => StepIdle(p, ch)
    case StatusHead => if ch == '\r' then p.To(HeadLF) else p
    case ErrorHead => if ch == '\r' then p.To(HeadLF) else p
    case IntegerHead => StepNumberHead(p, ch)
    case StringHead => StepNumberHead(p, ch)
    case ArrayHead => StepNumberHead(p, ch)
    case HeadLF => StepHeadLF(p, ch)
    case StringBody => StepBody(p, ch, StringBodyLF)
    case StringBodyLF => if ch == '\n' then p.To(Finished) else Failed
    case ArrayBody => StepArrayBody(p, ch)
    case LineBody => if ch == '\r' then p.To(ElementLF) else p
    case SubStringLen => StepSubStringLen(p, ch)
    case SubArrayLen => StepSubArrayLen(p, ch)
    case SubStringLenLF => if ch == '\n' then p.(strLen := p.integer, strCnt := 0, state := SubStringBody) else Failed
    case SubArrayLenLF => StepSubArrayLenLF(p, ch)
    case SubStringBody => StepBody(p, ch, ElementLF)
    case ElementLF => StepElementLF(p, ch)
    case Finished => Failed
  }

  function Run(p: Snapshot, s: string): Snapshot
    decreases |s|
  {
    if s == [] then p else Run(Step(p, s[0]), s[1..])
  }

  // ----- how runs compose -----

  /** Cutting the stream anywhere does not change the state reached. */
  lemma {:induction false} RunConcat(p: Snapshot, s: string, t: string)
    ensures Run(p, s + t) == Run(Run(p, s), t)
    decreases |s|
  {
    if s == [] {
      assert s + t == t;
    } else {
      RunConcat(Step(p, s[0]), s[1..], t);
      assert (s + t)[1..] == s[1..] + t;
    }
  }

  lemma {:induction false} RunCons(p: Snapshot, c: char, t: string)
    ensures Run(p, [c] + t) == Run(Step(p, c), t)
  {
    assert ([c] + t)[1..] == t;
  }

  lemma {:induction false} RunFailed(s: string)
    ensures Run(Failed, s) == Failed
  {
    if s != [] { RunFailed(s[1..]); }
  }

  lemma {:induction false} RunDigits(p: Snapshot, s: string)
    requires p.At? && p.state in {IntegerHead, StringHead, ArrayHead, SubStringLen, SubArrayLen}
    requires AllDigits(s)
    ensures Run(p, s) == p.(integer := Accumulate(p.integer, s))
    decreases |s|
  {
    if s != [] { RunDigits(Step(p, s[0]), s[1..]); }
  }

  lemma {:induction false} RunLine(p: Snapshot, s: string)
    requires p.At? && p.state in {StatusHead, ErrorHead, LineBody}
    requires '\r' !in s
    ensures Run(p, s) == p
    decreases |s|
  {
    if s != [] { RunLine(p, s[1..]); }
  }

  lemma {:induction false} RunBody(p: Snapshot, s: string)
    requires p.At? && p.state in {StringBody, SubStringBody}
    requires p.strCnt + |s| <= p.strLen
    ensures Run(p, s) == p.(strCnt := p.strCnt + |s|)
    decreases |s|
  {
    if s != [] { RunBody(Step(p, s[0]), s[1..]); }
  }

  // ----- elements of an array -----

  /** Whether the parser takes `r` as an element when `room` more arrays may be opened. */
  predicate Fits(r: Reply, room: nat) {
    match r
    case Array(elems) => elems == [] || (room > 0 && forall i :: 0 <= i < |elems| ==> Fits(elems[i], room - 1))
    case NullArray => false
    case _ => true
  }

  /** The replies the parser takes: at most eight arrays deep, and no null array inside an array. */
  predicate Accepted(r: Reply) {
    r.Array? ==> forall i :: 0 <= i < |r.elems| ==> Fits(r.elems[i], 7)
  }

  /** The state after an element whose completion leaves `stack` open. */
  predicate AfterElement(q: Snapshot, kind: Kind, stack: seq<Frame>) {
    q.At? && q.kind == kind && q.stack == stack && q.state == if stack == [] then Finished else ArrayBody
  }

  lemma {:induction false} NoReturnInDigits(s: string)
    requires AllDigits(s)
    ensures '\r' !in s
  {
    assert forall i :: 0 <= i < |s| ==> IsDigit(s[i]);
  }

  lemma {:induction false} RunThree(p: Snapshot, a: string, b: string, c: string)
    ensures Run(p, a + b + c) == Run(Run(Run(p, a), b), c)
  {
    RunConcat(p, a + b, c);
    RunConcat(p, a, b);
  }

  /** A line element: tag, text, line end. */
  lemma {:induction false} RunLineElement(p: Snapshot, tag: char, text: string)
    requires p.At? && p.state == ArrayBody && p.stack != []
    requires tag in {'+', '-', ':'} && '\r' !in text
    ensures AfterElement(Run(p, [tag] + text + CRLF), p.kind, CloseElement(p.stack))
  {
    RunThree(p, [tag], text, CRLF);
    RunLine(p.To(LineBody), text);
  }

  /** `$n\r\n` inside an array. */
  lemma {:induction false} RunSubStringHead(p: Snapshot, n: nat)
    requires p.At? && p.state == ArrayBody
    ensures Run(p, "$" + Decimal(n) + CRLF)
         == p.(sign := false, integer := n, strLen := n, strCnt := 0, state := SubStringBody)
  {
    RunThree(p, "$", Decimal(n), CRLF);
    RunDigits(p.(sign := false, integer := 0, state := SubStringLen), Decimal(n));
    DecimalRoundTrip(n);
  }

  lemma {:induction false} RunBulkElement(p: Snapshot, data: string)
    requires p.At? && p.state == ArrayBody && p.stack != []
    ensures AfterElement(Run(p, EncodeBulk(data)), p.kind, CloseElement(p.stack))
  {
    RunThree(p, "$" + Decimal(|data|) + CRLF, data, CRLF);
    RunSubStringHead(p, |data|);
    RunBody(Run(p, "$" + Decimal(|data|) + CRLF), data);
  }

  /** `*n\r\n` inside an array: an empty array is complete, any other is opened if there is room. */
  lemma {:induction false} RunSubArrayHead(p: Snapshot, n: nat)
    requires p.At? && p.state == ArrayBody && p.stack != []
    ensures var q := Run(p, "*" + Decimal(n) + CRLF);
            if n == 0 then AfterElement(q, p.kind, CloseElement(p.stack))
            else if |p.stack| < MAX_ARRAY_DEPTH
            then q.At? && q.state == ArrayBody && q.kind == p.kind && q.stack == p.stack + [Frame(n, 0)]
            else q == Failed
  {
    RunThree(p, "*", Decimal(n), CRLF);
    RunDigits(p.(integer := 0, state := SubArrayLen), Decimal(n));
    DecimalRoundTrip(n);
  }

  lemma {:induction false} RunFive(p: Snapshot, a: char, b: char, c: char, d: char, e: char)
    ensures Run(p, [a, b, c, d, e]) == Step(Step(Step(Step(Step(p, a), b), c), d), e)
  {
    var p1, p2 := Step(p, a), Step(Step(p, a), b);
    var p3 := Step(p2, c);
    assert [a, b, c, d, e] == [a] + [b, c, d, e];
    RunCons(p, a, [b, c, d, e]);
    assert [b, c, d, e] == [b] + [c, d, e];
    RunCons(p1, b, [c, d, e]);
    assert [c, d, e] == [c] + [d, e];
    RunCons(p2, c, [d, e]);
    assert [d, e] == [d] + [e];
    RunCons(p3, d, [e]);
    RunCons(Step(p3, d), e, []);
  }

  lemma {:induction false} RunNullBulkElement(p: Snapshot)
    requires p.At? && p.state == ArrayBody && p.stack != []
    ensures AfterElement(Run(p, "$-1\r\n"), p.kind, CloseElement(p.stack))
  {
    hide Run;
    RunFive(p, '$', '-', '1', '\r', '\n');
  }

  lemma {:induction false} RunNullArrayElement(p: Snapshot)
    requires p.At? && p.state == ArrayBody
    ensures Run(p, "*-1\r\n") == Failed
  {
    hide Run;
    RunFive(p, '*', '-', '1', '\r', '\n');
  }

  /** One element of an open array, whatever it nests. */
  lemma {:induction false} RunElement(p: Snapshot, r: Reply)
    requires p.At? && p.state == ArrayBody && 0 < |p.stack| <= MAX_ARRAY_DEPTH
    requires WellFormed(r)
    ensures if Fits(r, 8 - |p.stack|)
            then AfterElement(Run(p, Encode(r)), p.kind, CloseElement(p.stack))
            else Run(p, Encode(r)) == Failed
    decreases r, 1
  {
    match r
    case Status(text) => RunLineElement(p, '+', text);
    case Error(text) => RunLineElement(p, '-', text);
    case Integer(n) =>
      NoReturnInDigits(Decimal(if n < 0 then -n else n));
      RunLineElement(p, ':', Signed(n));
    case Bulk(data) => RunBulkElement(p, data);
    case NullBulk => RunNullBulkElement(p);
    case Array(elems) => RunArrayElement(p, elems);
    case NullArray => RunNullArrayElement(p);
  }

  lemma {:induction false} RunArrayElement(p: Snapshot, elems: seq<Reply>)
    requires p.At? && p.state == ArrayBody && 0 < |p.stack| <= MAX_ARRAY_DEPTH
    requires WellFormed(Array(elems))
    ensures if Fits(Array(elems), 8 - |p.stack|)
            then AfterElement(Run(p, Encode(Array(elems))), p.kind, CloseElement(p.stack))
            else Run(p, Encode(Array(elems))) == Failed
    decreases elems, 1
  {
    hide Run, Decimal, EncodeAll;
    var head := "*" + Decimal(|elems|) + CRLF;
    RunConcat(p, head, EncodeAll(elems));
    RunSubArrayHead(p, |elems|);
    if elems == [] {
      RunNothing(Run(p, head));
    } else if |p.stack| < MAX_ARRAY_DEPTH {
      RunElements(Run(p, head), elems);
    } else {
      RunFailed(EncodeAll(elems));
    }
  }

  /** The stack after `k` more elements of the innermost open array. */
  function Advance(stack: seq<Frame>, k: nat): seq<Frame>
    requires stack != []
  {
    var top := stack[|stack| - 1];
    var rest := stack[..|stack| - 1];
    if top.cnt + k == top.num then CloseElement(rest) else rest + [Frame(top.num, top.cnt + k)]
  }

  predicate AllFit(rs: seq<Reply>, room: nat) {
    forall i :: 0 <= i < |rs| ==> Fits(rs[i], room)
  }

  lemma {:induction false} AllFitCons(rs: seq<Reply>, room: nat)
    requires rs != []
    ensures AllFit(rs, room) <==> Fits(rs[0], room) && AllFit(rs[1..], room)
  {
    assert rs == [rs[0]] + rs[1..];
    if Fits(rs[0], room) && AllFit(rs[1..], room) {
      forall i | 0 <= i < |rs| ensures Fits(rs[i], room) {
        if i > 0 { assert rs[i] == rs[1..][i - 1]; }
      }
    }
  }

  lemma {:induction false} RunNothing(p: Snapshot)
    ensures Run(p, []) == p && EncodeAll([]) == []
  {
  }

  /** Some or all of the elements still owed to the innermost open array. */
  lemma {:induction false} RunElements(p: Snapshot, rs: seq<Reply>)
    requires p.At? && p.state == ArrayBody && 0 < |p.stack| <= MAX_ARRAY_DEPTH
    requires var top := p.stack[|p.stack| - 1]; top.cnt < top.num && top.cnt + |rs| <= top.num
    requires forall i :: 0 <= i < |rs| ==> WellFormed(rs[i])
    ensures if AllFit(rs, 8 - |p.stack|)
            then AfterElement(Run(p, EncodeAll(rs)), p.kind, Advance(p.stack, |rs|))
            else Run(p, EncodeAll(rs)) == Failed
    decreases rs, 0
  {
    hide Encode, Fits, WellFormed, Step, Run, CloseElement, Advance;
    if rs == [] {
      RunNothing(p);
      AdvanceNone(p.stack);
      return;
    }
    var q := Run(p, Encode(rs[0]));
    RunElement(p, rs[0]);
    RunConcat(p, Encode(rs[0]), EncodeAll(rs[1..]));
    AllFitCons(rs, MAX_ARRAY_DEPTH - |p.stack|);
    AdvanceOne(p.stack, |rs| - 1);
    if q == Failed {
      RunFailed(EncodeAll(rs[1..]));
    } else if |rs| > 1 {
      RunElements(q, rs[1..]);
    } else {
      assert rs[1..] == [];
      RunNothing(q);
    }
  }

  lemma {:induction false} AdvanceNone(stack: seq<Frame>)
    requires stack != [] && stack[|stack| - 1].cnt < stack[|stack| - 1].num
    ensures Advance(stack, 0) == stack
  {
  }

  /** One element closed, and `k` more to come. */
  lemma {:induction false} AdvanceOne(stack: seq<Frame>, k: nat)
    requires stack != [] && stack[|stack| - 1].cnt + 1 + k <= stack[|stack| - 1].num
    ensures var (s, top) := (CloseElement(stack), stack[|stack| - 1]);
            && (k > 0 ==> |s| == |stack| && s[|s| - 1] == Frame(top.num, top.cnt + 1) && Advance(s, k) == Advance(stack, k + 1))
            && (k == 0 ==> s == Advance(stack, 1))
  {
    if k > 0 {
      var s := CloseElement(stack);
      assert s[..|s| - 1] == stack[..|stack| - 1];
    }
  }

  // ----- whole replies -----

  function KindOf(r: Reply): Kind {
    match r
    case Status(_) => KStatus
    case Error(_) => KError
    case Integer(_) => KInteger
    case Bulk(_) => KString
    case NullBulk => KString
    case Array(_) => KArray
    case NullArray => KArray
  }

  lemma {:induction false} RunLineReply(tag: char, text: string)
    requires tag in {'+', '-'} && '\r' !in text
    ensures var q := Run(Start, [tag] + text + CRLF);
            q.Done() && q.kind == (if tag == '+' then KStatus else KError) && q.integer == 0
  {
    RunThree(Start, [tag], text, CRLF);
    RunLine(Step(Start, tag), text);
  }

  /** Tag, number, line end: what every reply but a line starts with. */
  lemma {:induction false} RunNumberHead(tag: char, n: int)
    requires tag in {':', '$', '*'}
    ensures Step(Start, tag).At?
    ensures Run(Start, [tag] + Signed(n) + CRLF)
         == StepHeadLF(Step(Start, tag).(integer := n, sign := n < 0, state := HeadLF), '\n')
  {
    var q := Step(Start, tag);
    RunThree(Start, [tag], Signed(n), CRLF);
    if n < 0 {
      RunConcat(q, "-", Decimal(-n));
      RunDigits(q.(sign := true), Decimal(-n));
      DecimalRoundTrip(-n);
    } else {
      RunDigits(q, Decimal(n));
      DecimalRoundTrip(n);
    }
  }

  lemma {:induction false} RunBulkReply(data: string)
    ensures var q := Run(Start, EncodeBulk(data)); q.Done() && q.kind == KString && q.integer == |data|
  {
    hide Run, Step, Signed, Decimal;
    var head := "$" + Signed(|data|) + CRLF;
    BulkIsThree(data);
    RunThree(Start, head, data, CRLF);
    RunNumberHead('$', |data|);
    BulkHead(|data|);
    RunBody(Run(Start, head), data);
    RunBodyLF(Run(Run(Start, head), data));
  }

  lemma {:induction false} BulkIsThree(data: string)
    ensures EncodeBulk(data) == ("$" + Signed(|data|) + CRLF) + data + CRLF
  {
    hide Decimal;
  }

  lemma {:induction false} BulkHead(n: nat)
    ensures Step(Start, '$').At?
    ensures var q := StepHeadLF(Step(Start, '$').(integer := n, sign := false, state := HeadLF), '\n');
            q.At? && q.kind == KString && q.state == StringBody && q.strLen == q.integer == n && q.strCnt == 0
  {
  }

  lemma {:induction false} RunBodyLF(p: Snapshot)
    requires p.At? && p.state == StringBody && p.strCnt == p.strLen
    ensures Run(p, CRLF) == p.(strCnt := 0, state := Finished)
  {
    hide Run, Step;
    assert CRLF == ['\r'] + ['\n'];
    RunCons(p, '\r', ['\n']);
    RunCons(Step(p, '\r'), '\n', []);
    BodyEnds(p);
    assert ['\n'] + [] == ['\n'];
    RunNothing(p.(strCnt := 0, state := Finished));
  }

  lemma {:induction false} BodyEnds(p: Snapshot)
    requires p.At? && p.state == StringBody && p.strCnt == p.strLen
    ensures Step(Step(p, '\r'), '\n') == p.(strCnt := 0, state := Finished)
  {
  }

  lemma {:induction false} RunArrayHead(n: nat)
    ensures var q := Run(Start, "*" + Decimal(n) + CRLF);
            q.At? && q.kind == KArray &&
            if n == 0 then q.Done() else q.state == ArrayBody && q.stack == [Frame(n, 0)]
  {
    RunNumberHead('*', n);
  }

  lemma {:induction false} RunArrayReply(elems: seq<Reply>)
    requires WellFormed(Array(elems))
    ensures var q := Run(Start, Encode(Array(elems)));
            if Accepted(Array(elems)) then q.Done() && q.kind == KArray else q == Failed
  {
    RunConcat(Start, "*" + Decimal(|elems|) + CRLF, EncodeAll(elems));
    RunArrayHead(|elems|);
    if elems != [] {
      var p := Run(Start, "*" + Decimal(|elems|) + CRLF);
      RunElements(p, elems);
      assert Advance(p.stack, |elems|) == [];
    }
  }

  /** A reply is taken at its last byte if it is at most eight arrays deep and nests no null
      array; every other reply makes the parser fail. */
  lemma {:induction false} ReplyIsTaken(r: Reply)
    requires WellFormed(r)
    ensures var q := Run(Start, Encode(r));
            if Accepted(r)
            then q.Done() && q.kind == KindOf(r)
                 && (r.Integer? ==> q.integer == r.n) && (r.Error? || r.Status? ==> q.integer == 0)
            else q == Failed
  {
    match r
    case Status(text) => RunLineReply('+', text);
    case Error(text) => RunLineReply('-', text);
    case Integer(n) => RunNumberHead(':', n);
    case Bulk(data) => RunBulkReply(data);
    case NullBulk => RunNumberHead('$', -1); assert "$" + Signed(-1) + CRLF == Encode(r);
    case Array(elems) => RunArrayReply(elems);
    case NullArray => RunNumberHead('*', -1); assert "*" + Signed(-1) + CRLF == Encode(r);
  }

  /** On a proper prefix of a reply the parser neither completes nor fails. */
  lemma {:induction false} ProperPrefixIsPartial(r: Reply, k: nat)
    requires WellFormed(r) && Accepted(r) && k < |Encode(r)|
    ensures Run(Start, Encode(r)[..k]).Running()
  {
    hide Run, Step, Encode, WellFormed, Accepted;
    var s := Encode(r);
    ReplyIsTaken(r);
    assert s == s[..k] + s[k..] && s[k..] == [s[k]] + s[k + 1..];
    var q := Run(Start, s[..k]);
    RunConcat(Start, s[..k], s[k..]);
    RunCons(q, s[k], s[k + 1..]);
    RunFailed(s[k + 1..]);
    RunFailed(s[k..]);
    FinishedFails(q, s[k]);
  }

  lemma {:induction false} FinishedFails(p: Snapshot, c: char)
    ensures p.Done() ==> Step(p, c) == Failed
  {
  }

  // ----- the stack -----

  /** A position inside nested arrays: the element index to follow in each of them. */
  predicate IsPath(r: Reply, path: seq<nat>) {
    path == [] || (r.Array? && path[0] < |r.elems| && IsPath(r.elems[path[0]], path[1..]))
  }

  /** The bytes of `r` in front of the element that `path` leads to. */
  function BytesBefore(r: Reply, path: seq<nat>): string
    requires IsPath(r, path)
    decreases path
  {
    if path == [] then [] else
    "*" + Decimal(|r.elems|) + CRLF + EncodeAll(r.elems[..path[0]]) + BytesBefore(r.elems[path[0]], path[1..])
  }

  /** The arrays open in front of that element, outermost first, with the elements each has had. */
  function OpenArrays(r: Reply, path: seq<nat>): seq<Frame>
    requires IsPath(r, path)
    decreases path
  {
    if path == [] then [] else [Frame(|r.elems|, path[0])] + OpenArrays(r.elems[path[0]], path[1..])
  }

  lemma {:induction false} StackInside(p: Snapshot, r: Reply, path: seq<nat>)
    requires p.At? && p.state == ArrayBody && 0 < |p.stack| <= MAX_ARRAY_DEPTH
    requires IsPath(r, path) && WellFormed(r) && Fits(r, MAX_ARRAY_DEPTH - |p.stack|)
    ensures var q := Run(p, BytesBefore(r, path));
            q.At? && q.state == ArrayBody && q.kind == p.kind && q.stack == p.stack + OpenArrays(r, path)
    decreases path
  {
    hide Step, CloseElement, Encode, Fits, WellFormed;
    if path != [] {
      ElementsFit(r, path[0], MAX_ARRAY_DEPTH - |p.stack|);
      RunThree(p, "*" + Decimal(|r.elems|) + CRLF, EncodeAll(r.elems[..path[0]]), BytesBefore(r.elems[path[0]], path[1..]));
      RunSubArrayHead(p, |r.elems|);
      var q := Run(p, "*" + Decimal(|r.elems|) + CRLF);
      RunElements(q, r.elems[..path[0]]);
      assert q.stack[..|q.stack| - 1] == p.stack;
      StackInside(Run(q, EncodeAll(r.elems[..path[0]])), r.elems[path[0]], path[1..]);
    }
  }

  lemma {:induction false} ElementsFit(r: Reply, k: nat, room: nat)
    requires r.Array? && k < |r.elems| && WellFormed(r) && Fits(r, room)
    ensures room > 0 && AllFit(r.elems[..k], room - 1) && Fits(r.elems[k], room - 1)
    ensures WellFormed(r.elems[k]) && forall i :: 0 <= i < k ==> WellFormed(r.elems[..k][i])
  {
  }

  lemma {:induction false} AcceptedElements(r: Reply, k: nat)
    requires r.Array? && k < |r.elems| && WellFormed(r) && Accepted(r)
    ensures AllFit(r.elems[..k], MAX_ARRAY_DEPTH - 1) && Fits(r.elems[k], MAX_ARRAY_DEPTH - 1)
    ensures WellFormed(r.elems[k]) && forall i :: 0 <= i < k ==> WellFormed(r.elems[..k][i])
  {
  }

  /** In front of any element, however deep, the stack lists exactly the open arrays and what they are owed. */
  lemma {:induction false} StackIsOpenArrays(r: Reply, path: seq<nat>)
    requires WellFormed(r) && Accepted(r) && IsPath(r, path) && path != []
    ensures var q := Run(Start, BytesBefore(r, path));
            q.At? && q.state == ArrayBody && q.stack == OpenArrays(r, path)
  {
    hide Step, CloseElement, Encode, Fits, WellFormed;
    var head := "*" + Decimal(|r.elems|) + CRLF;
    var first := EncodeAll(r.elems[..path[0]]);
    AcceptedElements(r, path[0]);
    RunThree(Start, head, first, BytesBefore(r.elems[path[0]], path[1..]));
    RunArrayHead(|r.elems|);
    RunElements(Run(Start, head), r.elems[..path[0]]);
    StackInside(Run(Run(Start, head), first), r.elems[path[0]], path[1..]);
  }
}
