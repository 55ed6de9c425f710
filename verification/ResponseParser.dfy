/** The resumable reply parser of a server connection as an object (src/ResponseParser.cpp). */
module ResponseParsing {
  import opened Bytes
  import opened ResponseMachine

  /** What one byte outside a body leads to. */
  datatype Verdict = GoOn | Done | Bad

  class ResponseParser {
    var kind: Kind
    var state: State
    var integer: int
    var stringLen: int
    var stringCnt: int
    var depth: nat
    var sign: bool
    const arrayNum: array<int>
    const elementCnt: array<int>
    /** The reply's bytes, as offsets in the stream of bytes received. */
    var resBegin: nat
    var resEnd: nat

    ghost predicate Valid()
      reads this
    {
      && arrayNum.Length == elementCnt.Length == MAX_ARRAY_DEPTH && arrayNum != elementCnt
      && depth <= MAX_ARRAY_DEPTH
      && (state in {ArrayBody, LineBody, SubStringLen, SubStringLenLF, SubStringBody, SubArrayLen, SubArrayLenLF, ElementLF}
          ==> depth > 0)
      && (state in {SubStringLen, SubStringLenLF} ==> integer >= 0)
      && (state in {StringBody, SubStringBody} ==> 0 <= stringCnt <= stringLen)
    }

    ghost function View(): Snapshot
      requires Valid()
      reads this, arrayNum, elementCnt
    {
      At(state, kind, integer, stringLen, if state in {StringBody, SubStringBody} then stringCnt else 0,
         Frames(arrayNum[..depth], elementCnt[..depth]), sign)
    }

    static ghost function Frames(nums: seq<int>, cnts: seq<int>): seq<Frame>
      requires |nums| == |cnts|
    {
      seq(|nums|, i requires 0 <= i < |nums| => Frame(nums[i], cnts[i]))
    }

    constructor ()
      ensures Valid() && View() == Start
      ensures fresh(arrayNum) && fresh(elementCnt)
    {
      kind, state, integer, stringLen, stringCnt, depth, sign := KNone, Idle, 0, 0, 0, 0, false;
      resBegin, resEnd := 0, 0;
      arrayNum := new int[MAX_ARRAY_DEPTH];
      elementCnt := new int[MAX_ARRAY_DEPTH];
    }

    method Reset()
      requires Valid()
      modifies this
      ensures Valid() && View() == Start
    {
      kind, state, integer, stringLen, stringCnt, depth, sign := KNone, Idle, 0, 0, 0, 0, false;
      resBegin, resEnd := 0, 0;
    }

    /** `mArrayNum[mDepth] = n; mElementCnt[mDepth++] = 0` */
    method Push(n: int)
      requires Valid() && depth < MAX_ARRAY_DEPTH
      modifies this`depth, arrayNum, elementCnt
      ensures depth == old(depth) + 1
      ensures Frames(arrayNum[..depth], elementCnt[..depth])
           == old(Frames(arrayNum[..depth], elementCnt[..depth])) + [Frame(n, 0)]
    {
      arrayNum[depth] := n;
      elementCnt[depth] := 0;
      depth := depth + 1;
    }

    /** The loop of the ElementLF state. */
    method CloseElements() returns (done: bool)
      requires Valid() && depth > 0
      modifies this`depth, elementCnt
      ensures depth <= MAX_ARRAY_DEPTH && done == (depth == 0)
      ensures Frames(arrayNum[..depth], elementCnt[..depth])
           == CloseElement(old(Frames(arrayNum[..depth], elementCnt[..depth])))
    {
      ghost var goal := CloseElement(Frames(arrayNum[..depth], elementCnt[..depth]));
      while true
        invariant 0 < depth <= MAX_ARRAY_DEPTH
        invariant CloseElement(Frames(arrayNum[..depth], elementCnt[..depth])) == goal
        decreases depth
      {
        ghost var stack := Frames(arrayNum[..depth], elementCnt[..depth]);
        elementCnt[depth - 1] := elementCnt[depth - 1] + 1;
        ghost var rest := Frames(arrayNum[..depth - 1], elementCnt[..depth - 1]);
        assert stack[..depth - 1] == rest;
        assert Frames(arrayNum[..depth], elementCnt[..depth])
            == rest + [Frame(arrayNum[depth - 1], elementCnt[depth - 1])];
        if elementCnt[depth - 1] == arrayNum[depth - 1] {
          depth := depth - 1;
          if depth == 0 { return true; }
        } else {
          return false;
        }
      }
    }

    method HandleIdle(ch: char) returns (v: Verdict)
      requires Valid() && state == Idle
      modifies this`kind, this`state
      ensures Valid() && v != Done
      ensures Step(old(View()), ch) == if v == Bad then Failed else View()
    {
      v := GoOn;
      match ch {
        case '+' => kind, state := KStatus, StatusHead;
        case '-' => kind, state := KError, ErrorHead;
        case ':' => kind, state := KInteger, IntegerHead;
        case '$' => kind, state := KString, StringHead;
        case '*' => kind, state := KArray, ArrayHead;
        case _ => v := Bad;
      }
    }

    method HandleHeadLF(ch: char) returns (v: Verdict)
      requires Valid() && state == HeadLF
      modifies this`depth, this`state, this`stringLen, this`stringCnt, arrayNum, elementCnt
      ensures Valid()
      ensures Step(old(View()), ch)
           == if v == Bad then Failed else if v == Done then View().To(Finished) else View()
      ensures (v == GoOn ==> state != Finished) && (v == Done ==> state == HeadLF)
    {
      if ch != '\n' { return Bad; }
      match kind {
        case KString =>
          if integer < 0 { return Done; }
          stringLen, stringCnt, state := integer, 0, StringBody;
          v := GoOn;
        case KArray =>
          if integer <= 0 { return Done; }
          depth := 0;
          Push(integer);
          state := ArrayBody;
          v := GoOn;
        case KNone => v := Bad;
        case _ => v := Done;
      }
    }

    /** The number of a reply. */
    method HandleNumber(ch: char) returns (v: Verdict)
      requires Valid() && state in {IntegerHead, StringHead, ArrayHead}
      modifies this`state, this`integer, this`sign
      ensures Valid() && v != Done && (v == GoOn ==> state != Finished)
      ensures Step(old(View()), ch) == if v == Bad then Failed else View()
    {
      v := GoOn;
      if IsDigit(ch) {
        integer := integer * 10 + DigitValue(ch);
      } else if ch == '\r' {
        if sign { integer := -integer; }
        state := HeadLF;
      } else if ch == '-' && !sign {
        sign := true;
      } else {
        v := Bad;
      }
    }

    /** The length of an element. */
    method HandleLength(ch: char) returns (v: Verdict)
      requires Valid() && state in {SubStringLen, SubArrayLen}
      modifies this`state, this`integer, this`sign
      ensures Valid() && v != Done && (v == GoOn ==> state != Finished)
      ensures Step(old(View()), ch) == if v == Bad then Failed else View()
    {
      v := GoOn;
      if IsDigit(ch) {
        integer := integer * 10 + DigitValue(ch);
      } else if ch == '\r' {
        if state == SubStringLen {
          state := if sign then ElementLF else SubStringLenLF;
        } else {
          state := if integer > 0 then SubArrayLenLF else ElementLF;
        }
      } else if state == SubStringLen && ch == '-' && !sign {
        sign := true;
      } else {
        v := Bad;
      }
    }

    /** The lines that end with the byte '\r'. */
    method HandleLine(ch: char) returns (v: Verdict)
      requires Valid() && state in {StatusHead, ErrorHead, LineBody}
      modifies this`state
      ensures Valid() && v == GoOn && state != Finished && Step(old(View()), ch) == View()
    {
      v := GoOn;
      if ch == '\r' { state := if state == LineBody then ElementLF else HeadLF; }
    }

    method HandleSubStringLenLF(ch: char) returns (v: Verdict)
      requires Valid() && state == SubStringLenLF
      modifies this`state, this`stringLen, this`stringCnt
      ensures v in {GoOn, Bad} && (v == GoOn ==> Valid() && state != Finished && Step(old(View()), ch) == View())
      ensures v == Bad ==> Step(old(View()), ch) == Failed
    {
      v := GoOn;
      stringLen, stringCnt := integer, 0;
      if ch == '\n' { state := SubStringBody; } else { v := Bad; }
    }

    method HandleSubArrayLenLF(ch: char) returns (v: Verdict)
      requires Valid() && state == SubArrayLenLF
      modifies this`state, this`depth, arrayNum, elementCnt
      ensures Valid() && v in {GoOn, Bad} && (v == GoOn ==> state != Finished)
      ensures Step(old(View()), ch) == if v == Bad then Failed else View()
    {
      v := GoOn;
      if ch == '\n' && depth < MAX_ARRAY_DEPTH {
        Push(integer);
        state := ArrayBody;
      } else {
        v := Bad;
      }
    }

    method HandleElementLF(ch: char) returns (v: Verdict)
      requires Valid() && state == ElementLF
      modifies this`state, this`depth, elementCnt
      ensures Valid() && (v == GoOn ==> state == ArrayBody) && (v == Done ==> state == Finished)
      ensures Step(old(View()), ch) == if v == Bad then Failed else View()
    {
      hide CloseElement;
      if ch != '\n' { return Bad; }
      var done := CloseElements();
      state := if done then Finished else ArrayBody;
      v := if done then Done else GoOn;
    }

    method HandleArrayBody(ch: char) returns (v: Verdict)
      requires Valid() && state == ArrayBody
      modifies this`state, this`integer, this`sign
      ensures Valid() && v != Done && (v == GoOn ==> state != Finished)
      ensures Step(old(View()), ch) == if v == Bad then Failed else View()
    {
      v := GoOn;
      match ch {
        case '+' => state := LineBody;
        case '-' => state := LineBody;
        case ':' => state := LineBody;
        case '$' => sign, integer, state := false, 0, SubStringLen;
        case '*' => integer, state := 0, SubArrayLen;
        case _ => v := Bad;
      }
    }

    /** Every state but the two bodies: exactly one byte. */
    method HandleByte(ch: char) returns (v: Verdict)
      requires Valid() && state !in {StringBody, SubStringBody}
      modifies this`kind, this`state, this`integer, this`stringLen, this`stringCnt, this`depth, this`sign
      modifies arrayNum, elementCnt
      ensures v != Bad ==> Valid()
      ensures v == Bad ==> Step(old(View()), ch) == Failed
      ensures v == GoOn ==> Step(old(View()), ch) == View() && state != Finished
      ensures v == Done ==> Step(old(View()), ch) == View().To(Finished) && state !in {StringBody, SubStringBody}
    {
      hide CloseElement;
      v := GoOn;
      if state == Idle {
        v := HandleIdle(ch);
      } else if state in {StatusHead, ErrorHead, LineBody} {
        v := HandleLine(ch);
      } else if state == HeadLF {
        v := HandleHeadLF(ch);
      } else if state == StringBodyLF {
        v := if ch == '\n' then Done else Bad;
      } else if state == ArrayBody {
        v := HandleArrayBody(ch);
      } else if state == SubStringLenLF {
        v := HandleSubStringLenLF(ch);
      } else if state == SubArrayLenLF {
        v := HandleSubArrayLenLF(ch);
      } else if state == ElementLF {
        v := HandleElementLF(ch);
      } else if state == Finished {
        v := Bad;
      } else if state in {IntegerHead, StringHead, ArrayHead} {
        v := HandleNumber(ch);
      } else {
        v := HandleLength(ch);
      }
    }

    /** The StringBody state: skips to the end of the string or of the buffer. */
    method SkipString(buf: string, cursor: nat) returns (bad: bool, next: nat)
      requires Valid() && state == StringBody && cursor < |buf|
      modifies this`state, this`stringCnt
      ensures !bad ==> Valid() && cursor <= next < |buf| && state != Finished
      ensures !bad ==> Run(old(View()), buf[cursor..next + 1]) == View()
      ensures bad ==> next == cursor && Run(old(View()), buf[cursor..next + 1]) == Failed
    {
      bad, next := false, cursor;
      ghost var p := View();
      if stringCnt == stringLen {
        if buf[cursor] == '\r' { state := StringBodyLF; } else { bad := true; }
        assert buf[cursor..cursor + 1] == [buf[cursor]];
      } else {
        if stringCnt + (|buf| - cursor) >= stringLen {
          next := cursor + stringLen - stringCnt - 1;
          stringCnt := stringLen;
        } else {
          stringCnt := stringCnt + (|buf| - cursor);
          next := |buf| - 1;
        }
        RunBody(p, buf[cursor..next + 1]);
      }
    }

    /** The SubStringBody state: skips past the end of the string or of the buffer. */
    method SkipSubString(buf: string, cursor: nat) returns (bad: bool, next: nat)
      requires Valid() && state == SubStringBody && cursor < |buf|
      modifies this`state, this`stringCnt
      ensures !bad ==> Valid() && cursor <= next < |buf| && state != Finished
      ensures !bad ==> Run(old(View()), buf[cursor..next + 1]) == View()
      ensures bad ==>
                cursor <= next < |buf| && Run(old(View()), buf[cursor..next]).Running()
                && Run(old(View()), buf[cursor..next + 1]) == Failed
    {
      bad := false;
      ghost var p := View();
      if stringCnt + (|buf| - cursor) > stringLen {
        next := cursor + stringLen - stringCnt;
        RunBody(p, buf[cursor..next]);
        assert buf[cursor..next + 1] == buf[cursor..next] + [buf[next]];
        RunConcat(p, buf[cursor..next], [buf[next]]);
        if buf[next] == '\r' {
          state := ElementLF;
        } else {
          bad := true;
        }
      } else {
        stringCnt := stringCnt + (|buf| - cursor);
        next := |buf| - 1;
        RunBody(p, buf[cursor..next + 1]);
      }
    }

    static lemma {:induction false} RunSlices(p: Snapshot, buf: string, a: nat, b: nat, c: nat)
      requires a <= b <= c <= |buf|
      ensures Run(p, buf[a..c]) == Run(Run(p, buf[a..b]), buf[b..c])
    {
      assert buf[a..c] == buf[a..b] + buf[b..c];
      RunConcat(p, buf[a..b], buf[b..c]);
    }

    static lemma {:induction false} RunByte(p: Snapshot, c: char)
      ensures Run(p, [c]) == Step(p, c)
    {
    }

    /** Reading from `a` on, the byte at `k` is the first that the machine rejects, and nothing is complete before it. */
    static ghost predicate FailsAt(p: Snapshot, buf: string, a: nat, k: nat) {
      && a <= k < |buf| && (k > a ==> Run(p, buf[a..k]).Running())
      && Run(p, buf[a..k + 1]) == Failed
    }

    /** One turn of the loop: one byte, or in a body as many as there are. */
    method Turn(buf: string, cursor: nat) returns (v: Verdict, next: nat)
      requires Valid() && cursor < |buf|
      modifies this`kind, this`state, this`integer, this`stringLen, this`stringCnt, this`depth, this`sign
      modifies arrayNum, elementCnt
      ensures v != Bad ==> Valid() && cursor < next <= |buf| && Run(old(View()), buf[cursor..next]) == View()
      ensures v == Bad ==> FailsAt(old(View()), buf, cursor, next)
      ensures v == Done <==> v != Bad && state == Finished
    {
      hide Run, Step, CloseElement;
      ghost var p := View();
      if state == StringBody || state == SubStringBody {
        var bad;
        if state == StringBody {
          bad, next := SkipString(buf, cursor);
        } else {
          bad, next := SkipSubString(buf, cursor);
        }
        if bad { return Bad, next; }
        next := next + 1;
        v := GoOn;
      } else {
        v := HandleByte(buf[cursor]);
        if v == Done { state := Finished; }
        next := if v == Bad then cursor else cursor + 1;
        assert buf[cursor..cursor + 1] == [buf[cursor]];
        RunByte(p, buf[cursor]);
      }
    }

    /** What fails from `b` on fails from `a` on. */
    static lemma {:induction false} FailsOn(start: Snapshot, p: Snapshot, buf: string, a: nat, b: nat, k: nat)
      requires a <= b && FailsAt(p, buf, b, k) && Run(start, buf[a..b]) == p && (b > a ==> p.Running())
      ensures FailsAt(start, buf, a, k)
    {
      hide Run, Snapshot.Running;
      RunSlices(start, buf, a, b, k);
      RunSlices(start, buf, a, b, k + 1);
      if k == b { assert buf[a..k] == buf[a..b]; }
    }

    /** Reads `buf` from `pos` on. `base` is the stream offset of the buffer's first byte.
        The outcome is that of reading the same bytes one by one: the reply is complete at the
        byte where the machine is done, and nothing after that byte is read. */
    method Parse(buf: string, pos: nat, base: nat) returns (st: Outcome, npos: nat, ghost failed: nat)
      requires Valid() && pos <= |buf|
      modifies this, arrayNum, elementCnt
      ensures st == ParseError ==> npos == pos && FailsAt(old(View()), buf, pos, failed)
      ensures st != ParseError ==> Valid() && pos < npos && resEnd == base + npos
      ensures st != ParseError ==>
                resBegin == if old(state) == Idle && pos < |buf| then base + pos else old(resBegin)
      ensures st == Complete ==> npos <= |buf| && View().Done() && Run(old(View()), buf[pos..npos]) == View()
      ensures st in {Normal, Partial} ==> npos == |buf| + 1 && Run(old(View()), buf[pos..]) == View()
      ensures st in {Normal, Partial} && pos < |buf| ==> View().Running()
    {
      hide Run, Step, FailsAt, CloseElement;
      ghost var start := View();
      var cursor := pos;
      failed := 0;
      Nothing(start, buf, pos);
      while cursor < |buf|
        invariant pos <= cursor <= |buf| && Valid() && Run(start, buf[pos..cursor]) == View()
        invariant cursor == pos ==> state == old(state) && resBegin == old(resBegin)
        invariant cursor > pos ==> state != Finished && state != Idle
        invariant cursor > pos ==> resBegin == if old(state) == Idle then base + pos else old(resBegin)
        decreases |buf| - cursor
      {
        if state == Idle { resBegin := base + cursor; }
        ghost var p := View();
        var v, next := Turn(buf, cursor);
        if v == Bad {
          FailsOn(start, p, buf, pos, cursor, next);
          return ParseError, pos, next;
        }
        RunSlices(start, buf, pos, cursor, next);
        NeverIdleAgain(p, buf[cursor..next]);
        if v == Done {
          npos := next;
          resEnd := base + npos;
          return Complete, npos, 0;
        }
        cursor := next;
      }
      assert buf[pos..cursor] == buf[pos..];
      npos := cursor + 1;
      resEnd := base + npos;
      st := if state in {Idle, StatusHead, ErrorHead, IntegerHead, StringHead, ArrayHead, HeadLF} then Normal else Partial;
    }

    static lemma {:induction false} Nothing(p: Snapshot, buf: string, a: nat)
      requires a <= |buf|
      ensures Run(p, buf[a..a]) == p
    {
    }

    static lemma {:induction false} NeverIdleAgain(p: Snapshot, s: string)
      requires s != []
      ensures Run(p, s).At? ==> Run(p, s).state != Idle
      decreases |s|
    {
      if |s| > 1 { NeverIdleAgain(Step(p, s[0]), s[1..]); }
    }
  }
}
