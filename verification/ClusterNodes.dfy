/** The text of CLUSTER NODES, byte by byte (src/ClusterNodesParser.cpp `parse`). */
module ClusterNodes {
  import opened Bytes
  import opened Servers
  import Gather

  /** Limits of the field strings. */
  const NODE_ID_LEN: nat := 48
  const ADDR_LEN: nat := 32
  const FLAGS_LEN: nat := 48

  /** `FieldType` */
  const ADDR: nat := 1
  const FLAGS: nat := 2
  const MASTER: nat := 3
  const SLOT: nat := 8

  datatype State = Idle | Len | LenLF | NodeStart | Field | SlotBegin | SlotEnd | SlotMove

  datatype Fields = Fields(role: Role, nodeId: string, addr: string, flags: string, master: string)

  const NO_FIELDS := Fields(Unknown, [], [], [], [])

  datatype Parser = Parser(state: State, len: int, cnt: nat, f: Fields, slotBegin: int, slotEnd: int)

  const START := Parser(Idle, 0, 0, NO_FIELDS, -1, -1)

  /** What one byte does. */
  datatype Outcome = Go(p: Parser) | Node(p: Parser) | Finished | Error

  predicate Contains(s: string, w: string) {
    w <= s || (s != [] && Contains(s[1..], w))
  }

  /** At the end of the flags the role is known, and "noaddr" takes the address away. */
  function WithRole(f: Fields): Fields {
    var flags := CString(f.flags);
    var role := if Contains(flags, "master") then Master else if Contains(flags, "slave") then Slave else f.role;
    f.(role := role, addr := if Contains(flags, "noaddr") then [] else f.addr)
  }

  /** One byte of a field; a field that is too long is an error. */
  function Append(f: Fields, cnt: nat, c: char): Option<Fields> {
    if cnt == 0 then (if |f.nodeId| < NODE_ID_LEN then Some(f.(nodeId := f.nodeId + [c])) else None)
    else if cnt == ADDR then (if |f.addr| < ADDR_LEN then Some(f.(addr := f.addr + [c])) else None)
    else if cnt == FLAGS then (if |f.flags| < FLAGS_LEN then Some(f.(flags := f.flags + [c])) else None)
    else if cnt == MASTER then (if |f.master| < NODE_ID_LEN then Some(f.(master := f.master + [c])) else None)
    else Some(f)
  }

  function FieldByte(p: Parser, c: char): Outcome {
    if c == ' ' then
      var f := if p.cnt == FLAGS then WithRole(p.f) else p.f;
      Go(p.(f := f, cnt := p.cnt + 1, state := if p.cnt + 1 == SLOT then SlotBegin else Field))
    else if c == '\n' then Node(p.(state := NodeStart))
    else
      match Append(p.f, p.cnt, c)
      case Some(f) => Go(p.(f := f, state := Field))
      case None => Error
  }

  function Byte(p: Parser, c: char): Outcome {
    match p.state
    case Idle => if c == '$' then Go(p.(state := Len)) else Error
    case Len =>
      if IsDigit(c) then Go(p.(len := p.len * 10 + DigitValue(c)))
      else if c == '\r' then Go(p.(state := LenLF)) else Error
    case LenLF => if c == '\n' then Go(p.(state := NodeStart)) else Error
    case NodeStart =>
      if c == '\r' then Finished
      else FieldByte(Parser(Field, p.len, 0, NO_FIELDS, -1, -1), c)
    case Field => FieldByte(p, c)
    case SlotBegin =>
      if IsDigit(c) then
        Go(p.(slotBegin := if p.slotBegin < 0 then DigitValue(c) else p.slotBegin * 10 + DigitValue(c)))
      else if c == '-' then Go(p.(state := SlotEnd, slotEnd := 0))
      else if c == '[' then Go(p.(state := SlotMove))
      else if c == ' ' then Node(p.(slotEnd := p.slotBegin + 1))
      else if c == '\n' then Node(p.(slotEnd := p.slotBegin + 1, state := NodeStart))
      else Error
    case SlotEnd =>
      if IsDigit(c) then Go(p.(slotEnd := p.slotEnd * 10 + DigitValue(c)))
      else if c == ' ' then Node(p.(slotEnd := p.slotEnd + 1, state := SlotBegin))
      else if c == '\n' then Node(p.(slotEnd := p.slotEnd + 1, state := NodeStart))
      else Error
    case SlotMove =>
      if c == ' ' then Go(p.(state := SlotBegin, slotBegin := -1, slotEnd := -1))
      else if c == '\n' then Node(p.(state := NodeStart))
      else Go(p)
  }

  /** The start of a call of `parse`: slots begin anew. */
  function Enter(p: Parser): Parser {
    if p.state == SlotBegin || p.state == SlotEnd then p.(slotBegin := -1, slotEnd := -1, state := SlotBegin) else p
  }

  /** What is reported with a node: its fields, and slots from `begin` up to but not including `end`, if any. */
  datatype Report = Report(f: Fields, begin: int, end: int) {
    predicate HasSlots() { 0 <= begin < end }
  }

  function ReportOf(p: Parser): Report { Report(p.f, p.slotBegin, p.slotEnd) }

  /** All that calls of `parse` report, to the end of `s`, and whether the last of them finishes. */
  function ParseAll(p: Parser, s: string): (seq<Report>, bool)
    decreases |s|
  {
    if s == [] then ([], false) else
    match Byte(p, s[0])
    case Go(q) => ParseAll(q, s[1..])
    case Node(q) => var (rs, ok) := ParseAll(Enter(q), s[1..]); ([ReportOf(q)] + rs, ok)
    case Finished => ([], true)
    case Error => ([], false)
  }

  // ----- one call of parse -----

  datatype Status = GotNode | GotFinished | GotError

  /** `s` is what is left of the stream. */
  function ParseOne(p: Parser, s: string): (r: (Status, Parser, string))
    ensures r.0 == GotNode ==> |r.2| < |s|
    decreases |s|
  {
    if s == [] then (GotError, p, []) else
    match Byte(p, s[0])
    case Go(q) => ParseOne(q, s[1..])
    case Node(q) => (GotNode, q, s[1..])
    case Finished => (GotFinished, p, s)
    case Error => (GotError, p, s)
  }

  lemma {:induction false} AllFromOne(p: Parser, s: string)
    ensures var (st, q, rest) := ParseOne(p, s);
            ParseAll(p, s) == match st
              case GotNode => ([ReportOf(q)] + ParseAll(Enter(q), rest).0, ParseAll(Enter(q), rest).1)
              case GotFinished => ([], true)
              case GotError => ([], false)
    decreases |s|
  {
    hide Byte, Enter;
    if s != [] {
      match Byte(p, s[0])
      case Go(q) => AllFromOne(q, s[1..]);
      case _ =>
    }
  }

  class ClusterNodesParser {
    /** `mNodes`: the bytes not used yet, buffer by buffer. */
    var nodes: seq<string>
    var p: Parser

    constructor (chunks: seq<string>)
      ensures nodes == chunks && p == START
    {
      nodes, p := chunks, START;
    }

    /** `parse`: up to the next node, across buffers; bytes are used when a buffer is left or a node is met. */
    method Parse() returns (st: Status)
      modifies this
      ensures var (st', q, rest) := ParseOne(Enter(old(p)), Gather.Flat(old(nodes)));
              st == st' && p == q && (st == GotNode ==> Gather.Flat(nodes) == rest)
    {
      hide Byte;
      p := Enter(p);
      ghost var all := ParseOne(p, Gather.Flat(nodes));
      while nodes != []
        invariant all == ParseOne(p, Gather.Flat(nodes))
        decreases |nodes|
      {
        var dat, rest := nodes[0], nodes[1..];
        ghost var more := Gather.Flat(rest);
        var n, node := 0, false;
        assert dat[0..] == dat;
        while n < |dat| && !node
          invariant n <= |dat|
          invariant !node ==> all == ParseOne(p, dat[n..] + more)
          invariant node ==> all == (GotNode, p, dat[n..] + more)
        {
          ghost var s := dat[n..] + more;
          assert s[0] == dat[n] && s[1..] == dat[n + 1..] + more;
          var c := dat[n];
          n := n + 1;
          match Byte(p, c)
          case Go(q) => p := q;
          case Node(q) => p, node := q, true;
          case Finished => return GotFinished;
          case Error => return GotError;
        }
        nodes := if n < |dat| then [dat[n..]] + rest else rest;
        assert n == |dat| ==> dat[n..] + more == more;
        if node { return GotNode; }
      }
      st := GotError;
    }
  }

  // ----- printing -----

  /** What stands behind the link state: slots `b` to `e`, one slot, or a slot that is being moved. */
  datatype Slots = Range(b: nat, e: nat) | Single(b: nat) | Moving(text: string)

  /** One line; `more` are the times of ping and pong, the epoch and the link state. */
  datatype Record = Record(nodeId: string, addr: string, flags: string, master: string, more: seq<string>,
                           slots: seq<Slots>)

  function PrintSlots(x: Slots): string {
    match x
    case Range(b, e) => Decimal(b) + ['-'] + Decimal(e)
    case Single(b) => Decimal(b)
    case Moving(text) => ['['] + text
  }

  function PrintAllSlots(xs: seq<Slots>): string {
    if xs == [] then [] else [' '] + PrintSlots(xs[0]) + PrintAllSlots(xs[1..])
  }

  /** The words from the `i`-th on, with spaces between them. */
  function Join(ws: seq<string>, i: nat): string
    requires i < |ws|
    decreases |ws| - i
  {
    if i + 1 == |ws| then ws[i] else ws[i] + [' '] + Join(ws, i + 1)
  }

  function Words(r: Record): seq<string> { [r.nodeId, r.addr, r.flags, r.master] + r.more }

  function PrintRecord(r: Record): string { Join(Words(r), 0) + PrintAllSlots(r.slots) + ['\n'] }

  function PrintRecords(rs: seq<Record>): string {
    if rs == [] then [] else PrintRecord(rs[0]) + PrintRecords(rs[1..])
  }

  /** The bulk string that a server answers with. */
  function Print(rs: seq<Record>): string {
    "$" + Decimal(|PrintRecords(rs)|) + "\r\n" + PrintRecords(rs) + "\r\n"
  }

  predicate Plain(w: string) { ' ' !in w && '\n' !in w }

  predicate WellFormed(r: Record) {
    && |r.more| == 4 && (forall i :: 0 <= i < 4 ==> Plain(r.more[i]))
    && Plain(r.nodeId) && Plain(r.addr) && Plain(r.flags) && Plain(r.master)
    && 0 < |r.nodeId| <= 48 && r.nodeId[0] != '\r' && |r.addr| <= 32 && |r.flags| <= 48 && |r.master| <= 48
    && forall i :: 0 <= i < |r.slots| && r.slots[i].Moving? ==> Plain(r.slots[i].text)
  }

  /** What is reported of the fields of a record. */
  function FieldsOf(r: Record): Fields {
    WithRole(Fields(Unknown, r.nodeId, r.addr, r.flags, [])).(master := r.master)
  }

  /** Slots that are being moved are left out; but when they are the last, or there are no slots at all, the node is
      reported once more without any. */
  function SlotReports(f: Fields, xs: seq<Slots>): seq<Report> {
    if xs == [] then []
    else
      (match xs[0]
       case Range(b, e) => [Report(f, b, e + 1)]
       case Single(b) => [Report(f, b, b + 1)]
       case Moving(_) => if |xs| == 1 then [Report(f, -1, -1)] else [])
      + SlotReports(f, xs[1..])
  }

  function Reports(r: Record): seq<Report> {
    if r.slots == [] then [Report(FieldsOf(r), -1, -1)] else SlotReports(FieldsOf(r), r.slots)
  }

  function AllReports(rs: seq<Record>): seq<Report> {
    if rs == [] then [] else Reports(rs[0]) + AllReports(rs[1..])
  }

  // ----- parsing what was printed -----

  function Before(rs: seq<Report>, r: (seq<Report>, bool)): (seq<Report>, bool) { (rs + r.0, r.1) }

  /** Field `cnt` with `w` behind what it holds. */
  function Extended(f: Fields, cnt: nat, w: string): Fields {
    if cnt == 0 then f.(nodeId := f.nodeId + w)
    else if cnt == ADDR then f.(addr := f.addr + w)
    else if cnt == FLAGS then f.(flags := f.flags + w)
    else if cnt == MASTER then f.(master := f.master + w)
    else f
  }

  predicate Fits(f: Fields, cnt: nat, w: string) {
    && (cnt == 0 ==> |f.nodeId| + |w| <= NODE_ID_LEN) && (cnt == ADDR ==> |f.addr| + |w| <= ADDR_LEN)
    && (cnt == FLAGS ==> |f.flags| + |w| <= FLAGS_LEN) && (cnt == MASTER ==> |f.master| + |w| <= NODE_ID_LEN)
  }

  lemma {:induction false} ExtendOne(f: Fields, cnt: nat, w: string)
    requires w != [] && Fits(f, cnt, w)
    ensures Append(f, cnt, w[0]) == Some(Extended(f, cnt, [w[0]]))
    ensures Fits(Extended(f, cnt, [w[0]]), cnt, w[1..])
    ensures Extended(Extended(f, cnt, [w[0]]), cnt, w[1..]) == Extended(f, cnt, w)
  {
    assert forall x: string :: x + [w[0]] + w[1..] == x + w;
  }

  lemma {:induction false} FieldRun(p: Parser, w: string, rest: string)
    requires p.state == Field && Plain(w) && Fits(p.f, p.cnt, w)
    ensures ParseAll(p, w + rest) == ParseAll(p.(f := Extended(p.f, p.cnt, w)), rest)
    decreases |w|
  {
    hide Append, Extended, Fits;
    if w == [] {
      ExtendNothing(p.f, p.cnt);
      assert w + rest == rest;
    } else {
      ExtendOne(p.f, p.cnt, w);
      assert w[0] in w;
      var q := p.(f := Extended(p.f, p.cnt, [w[0]]));
      assert (w + rest)[0] == w[0] && (w + rest)[1..] == w[1..] + rest;
      assert Byte(p, w[0]) == Go(q);
      FieldRun(q, w[1..], rest);
    }
  }

  /** How long field `cnt` is, and may be. */
  function FieldLength(f: Fields, cnt: nat): nat
    requires cnt < 4
  {
    if cnt == 0 then |f.nodeId| else if cnt == 1 then |f.addr| else if cnt == 2 then |f.flags| else |f.master|
  }

  function FieldLimit(cnt: nat): nat { if cnt == 1 then 32 else 48 }

  /** A field that is too long ends everything. */
  lemma {:induction false} TooLongFails(p: Parser, w: string, rest: string)
    requires p.state == Field && p.cnt < 4 && Plain(w)
    requires FieldLength(p.f, p.cnt) <= FieldLimit(p.cnt) < FieldLength(p.f, p.cnt) + |w|
    ensures ParseAll(p, w + rest) == ([], false)
    decreases |w|
  {
    assert w[0] in w && (w + rest)[0] == w[0] && (w + rest)[1..] == w[1..] + rest;
    if FieldLength(p.f, p.cnt) < FieldLimit(p.cnt) {
      var q := p.(f := Append(p.f, p.cnt, w[0]).value);
      TooLongFails(q, w[1..], rest);
    }
  }

  lemma {:induction false} ExtendNothing(f: Fields, cnt: nat)
    ensures Extended(f, cnt, []) == f
  {
    assert forall x: string :: x + [] == x;
  }

  /** A field and the space behind it. */
  function AfterField(p: Parser, w: string): Parser {
    var f := Extended(p.f, p.cnt, w);
    p.(f := if p.cnt == FLAGS then WithRole(f) else f, cnt := p.cnt + 1,
       state := if p.cnt + 1 == SLOT then SlotBegin else Field)
  }

  lemma {:induction false} FieldThenSpace(p: Parser, w: string, rest: string)
    requires p.state == Field && Plain(w) && Fits(p.f, p.cnt, w)
    ensures ParseAll(p, w + [' '] + rest) == ParseAll(AfterField(p, w), rest)
  {
    hide Append, Extended, Fits, WithRole;
    var s := [' '] + rest;
    assert w + [' '] + rest == w + s;
    FieldRun(p, w, s);
    assert s[0] == ' ' && s[1..] == rest;
  }

  /** The words from the `i`-th on, all but the last with a space behind it. */
  function AfterFields(p: Parser, ws: seq<string>, i: nat): Parser
    requires i < |ws|
    decreases |ws| - i
  {
    if i + 1 == |ws| then p.(f := Extended(p.f, p.cnt, ws[i])) else AfterFields(AfterField(p, ws[i]), ws, i + 1)
  }

  predicate FitAll(p: Parser, ws: seq<string>, i: nat)
    requires i < |ws|
    decreases |ws| - i
  {
    && p.state == Field && Plain(ws[i]) && Fits(p.f, p.cnt, ws[i])
    && (i + 1 < |ws| ==> FitAll(AfterField(p, ws[i]), ws, i + 1))
  }

  lemma {:induction false} JoinRun(p: Parser, ws: seq<string>, i: nat, rest: string)
    requires i < |ws| && FitAll(p, ws, i)
    ensures ParseAll(p, Join(ws, i) + rest) == ParseAll(AfterFields(p, ws, i), rest)
    decreases |ws| - i
  {
    hide ParseAll, AfterField, Extended, Fits, Plain;
    if i + 1 == |ws| {
      FieldRun(p, ws[i], rest);
    } else {
      var more := Join(ws, i + 1) + rest;
      assert Join(ws, i) + rest == ws[i] + [' '] + more;
      FieldThenSpace(p, ws[i], more);
      JoinRun(AfterField(p, ws[i]), ws, i + 1, rest);
    }
  }

  /** The parser inside the first field of a line. */
  function LineStart(len: int): Parser { Parser(Field, len, 0, NO_FIELDS, -1, -1) }

  lemma {:induction false} LastWords(p: Parser, r: Record)
    requires WellFormed(r) && p.state == Field && p.cnt == 4
    ensures FitAll(p, Words(r), 4) && AfterFields(p, Words(r), 4) == p.(cnt := 7)
  {
    var ws := Words(r);
    assert ws[4] == r.more[0] && ws[5] == r.more[1] && ws[6] == r.more[2] && ws[7] == r.more[3];
    var p5, p6, p7 := p.(cnt := 5), p.(cnt := 6), p.(cnt := 7);
    assert AfterField(p, ws[4]) == p5 && AfterField(p5, ws[5]) == p6 && AfterField(p6, ws[6]) == p7;
    assert FitAll(p7, ws, 7) && AfterFields(p7, ws, 7) == p7;
    assert FitAll(p6, ws, 6) && AfterFields(p6, ws, 6) == p7;
    assert FitAll(p5, ws, 5) && AfterFields(p5, ws, 5) == p7;
  }

  lemma {:induction false} FirstWords(len: int, r: Record)
    requires WellFormed(r)
    ensures FitAll(LineStart(len), Words(r), 0)
    ensures AfterFields(LineStart(len), Words(r), 0) == Parser(Field, len, 7, FieldsOf(r), -1, -1)
  {
    hide WithRole;
    var ws := Words(r);
    var f1 := Fields(Unknown, r.nodeId, [], [], []);
    var f2 := f1.(addr := r.addr);
    var f3 := f2.(flags := r.flags);
    var p1, p2 := Parser(Field, len, 1, f1, -1, -1), Parser(Field, len, 2, f2, -1, -1);
    var p3 := Parser(Field, len, 3, WithRole(f3), -1, -1);
    var p4 := Parser(Field, len, 4, FieldsOf(r), -1, -1);
    assert [] + r.nodeId == r.nodeId && [] + r.addr == r.addr && [] + r.flags == r.flags && [] + r.master == r.master;
    assert AfterField(LineStart(len), ws[0]) == p1 && AfterField(p1, ws[1]) == p2 && AfterField(p2, ws[2]) == p3;
    RoleKeepsMaster(f3);
    assert AfterField(p3, ws[3]) == p4;
    LastWords(p4, r);
    assert FitAll(p3, ws, 3) && AfterFields(p3, ws, 3) == p4.(cnt := 7);
    assert FitAll(p2, ws, 2) && AfterFields(p2, ws, 2) == p4.(cnt := 7);
    assert FitAll(p1, ws, 1) && AfterFields(p1, ws, 1) == p4.(cnt := 7);
  }

  lemma {:induction false} RoleKeepsMaster(f: Fields)
    ensures WithRole(f).master == f.master
  {
  }

  // ----- slots -----

  function AtSlots(len: int, cnt: nat, f: Fields): Parser { Parser(SlotBegin, len, cnt, f, -1, -1) }

  lemma {:induction false} BeginDigits(p: Parser, ds: string, rest: string)
    requires p.state == SlotBegin && p.slotBegin >= 0 && AllDigits(ds)
    ensures ParseAll(p, ds + rest) == ParseAll(p.(slotBegin := Accumulate(p.slotBegin, ds)), rest)
    decreases |ds|
  {
    if ds == [] {
      assert ds + rest == rest;
    } else {
      assert (ds + rest)[0] == ds[0] && (ds + rest)[1..] == ds[1..] + rest;
      BeginDigits(p.(slotBegin := p.slotBegin * 10 + DigitValue(ds[0])), ds[1..], rest);
    }
  }

  lemma {:induction false} EndDigits(p: Parser, ds: string, rest: string)
    requires p.state == SlotEnd && AllDigits(ds)
    ensures ParseAll(p, ds + rest) == ParseAll(p.(slotEnd := Accumulate(p.slotEnd, ds)), rest)
    decreases |ds|
  {
    if ds == [] {
      assert ds + rest == rest;
    } else {
      assert (ds + rest)[0] == ds[0] && (ds + rest)[1..] == ds[1..] + rest;
      EndDigits(p.(slotEnd := p.slotEnd * 10 + DigitValue(ds[0])), ds[1..], rest);
    }
  }

  lemma {:induction false} MoveText(p: Parser, w: string, rest: string)
    requires p.state == SlotMove && Plain(w)
    ensures ParseAll(p, w + rest) == ParseAll(p, rest)
    decreases |w|
  {
    if w == [] {
      assert w + rest == rest;
    } else {
      assert w[0] in w;
      assert (w + rest)[0] == w[0] && (w + rest)[1..] == w[1..] + rest;
      MoveText(p, w[1..], rest);
    }
  }

  lemma {:induction false} BeginNumber(p: Parser, n: nat, rest: string)
    requires p.state == SlotBegin && p.slotBegin == -1
    ensures ParseAll(p, Decimal(n) + rest) == ParseAll(p.(slotBegin := n), rest)
  {
    hide Decimal;
    var ds := Decimal(n);
    DecimalRoundTrip(n);
    assert (ds + rest)[0] == ds[0] && (ds + rest)[1..] == ds[1..] + rest;
    BeginDigits(p.(slotBegin := DigitValue(ds[0])), ds[1..], rest);
    assert Accumulate(0, ds) == Accumulate(0 * 10 + DigitValue(ds[0]), ds[1..]);
  }

  lemma {:induction false} RangeRun(p: Parser, b: nat, e: nat, rest: string)
    requires p.state == SlotBegin && p.slotBegin == -1
    ensures ParseAll(p, Decimal(b) + ['-'] + Decimal(e) + rest)
         == ParseAll(p.(state := SlotEnd, slotBegin := b, slotEnd := e), rest)
  {
    hide Decimal;
    var s := ['-'] + Decimal(e) + rest;
    assert Decimal(b) + ['-'] + Decimal(e) + rest == Decimal(b) + s;
    BeginNumber(p, b, s);
    assert s[0] == '-' && s[1..] == Decimal(e) + rest;
    EndDigits(p.(state := SlotEnd, slotBegin := b, slotEnd := 0), Decimal(e), rest);
    DecimalRoundTrip(e);
  }

  /** The reports of one item that is followed by a space or a line end. */
  function ItemReports(f: Fields, x: Slots, last: bool): seq<Report> {
    match x
    case Range(b, e) => [Report(f, b, e + 1)]
    case Single(b) => [Report(f, b, b + 1)]
    case Moving(_) => if last then [Report(f, -1, -1)] else []
  }

  lemma {:induction false} ByteThenAll(p: Parser, c: char, rest: string)
    ensures ParseAll(p, [c] + rest) == match Byte(p, c)
              case Go(q) => ParseAll(q, rest)
              case Node(q) => Before([ReportOf(q)], ParseAll(Enter(q), rest))
              case Finished => ([], true)
              case Error => ([], false)
  {
    hide Byte, Enter;
    assert ([c] + rest)[0] == c && ([c] + rest)[1..] == rest;
  }

  lemma {:induction false} OneItem(len: int, cnt: nat, f: Fields, x: Slots, last: bool, rest: string)
    returns (q: Parser)
    requires x.Moving? ==> Plain(x.text)
    ensures ParseAll(AtSlots(len, cnt, f), PrintSlots(x) + [if last then '\n' else ' '] + rest)
         == Before(ItemReports(f, x, last), ParseAll(q, rest))
    ensures if last then q.state == NodeStart else q == AtSlots(len, cnt, f)
  {
    hide ParseAll, Decimal;
    var p, c := AtSlots(len, cnt, f), if last then '\n' else ' ';
    var s := [c] + rest;
    assert PrintSlots(x) + [c] + rest == PrintSlots(x) + s;
    match x
    case Range(b, e) =>
      var p1 := p.(state := SlotEnd, slotBegin := b, slotEnd := e);
      RangeRun(p, b, e, s);
      ByteThenAll(p1, c, rest);
      q := if last then p1.(state := NodeStart, slotEnd := e + 1) else p;
    case Single(b) =>
      var p1 := p.(slotBegin := b);
      BeginNumber(p, b, s);
      ByteThenAll(p1, c, rest);
      q := if last then p1.(state := NodeStart, slotEnd := b + 1) else p;
    case Moving(text) =>
      var p1 := p.(state := SlotMove);
      assert PrintSlots(x) + s == ['['] + (text + s);
      ByteThenAll(p, '[', text + s);
      MoveText(p1, text, s);
      ByteThenAll(p1, c, rest);
      q := if last then p1.(state := NodeStart) else p;
      NothingBefore(ParseAll(q, rest));
  }

  lemma {:induction false} NothingBefore(r: (seq<Report>, bool))
    ensures Before([], r) == r
  {
    assert [] + r.0 == r.0;
  }

  lemma {:induction false} BeforeBefore(a: seq<Report>, b: seq<Report>, r: (seq<Report>, bool))
    ensures Before(a, Before(b, r)) == Before(a + b, r)
  {
    assert a + (b + r.0) == (a + b) + r.0;
  }

  lemma {:induction false} AllItems(len: int, cnt: nat, f: Fields, xs: seq<Slots>, rest: string) returns (q: Parser)
    requires xs != [] && forall i :: 0 <= i < |xs| && xs[i].Moving? ==> Plain(xs[i].text)
    ensures ParseAll(AtSlots(len, cnt, f), PrintSlots(xs[0]) + PrintAllSlots(xs[1..]) + ['\n'] + rest)
         == Before(SlotReports(f, xs), ParseAll(q, rest))
    ensures q.state == NodeStart
    decreases |xs|
  {
    hide ParseAll, PrintSlots, Before, Plain;
    var x, more := xs[0], xs[1..];
    if more == [] {
      assert PrintSlots(x) + PrintAllSlots(more) + ['\n'] + rest == PrintSlots(x) + ['\n'] + rest;
      q := OneItem(len, cnt, f, x, true, rest);
      assert SlotReports(f, xs) == ItemReports(f, x, true) + SlotReports(f, more) == ItemReports(f, x, true);
    } else {
      var s := PrintSlots(more[0]) + PrintAllSlots(more[1..]) + ['\n'] + rest;
      assert PrintSlots(x) + PrintAllSlots(more) + ['\n'] + rest == PrintSlots(x) + [' '] + s;
      var q1 := OneItem(len, cnt, f, x, false, s);
      q := AllItems(len, cnt, f, more, rest);
      assert ParseAll(AtSlots(len, cnt, f), s) == Before(SlotReports(f, more), ParseAll(q, rest));
      BeforeBefore(ItemReports(f, x, false), SlotReports(f, more), ParseAll(q, rest));
      assert SlotReports(f, xs) == ItemReports(f, x, false) + SlotReports(f, more);
    }
  }

  // ----- lines -----

  lemma {:induction false} EnterLine(p: Parser, s: string)
    requires p.state == NodeStart && s != [] && s[0] != '\r'
    ensures ParseAll(p, s) == ParseAll(LineStart(p.len), s)
  {
    hide FieldByte;
    var p0 := LineStart(p.len);
    assert Byte(p, s[0]) == FieldByte(p0, s[0]) == Byte(p0, s[0]);
  }

  lemma {:induction false} RecordStarts(r: Record)
    requires WellFormed(r)
    ensures Join(Words(r), 0) != [] && Join(Words(r), 0)[0] == r.nodeId[0] != '\r'
  {
    assert Words(r)[0] == r.nodeId;
  }

  /** One line is reported as it should be, and the next line starts behind it. */
  lemma {:induction false} RecordRun(p: Parser, r: Record, rest: string) returns (q: Parser)
    requires p.state == NodeStart && WellFormed(r)
    ensures ParseAll(p, PrintRecord(r) + rest) == Before(Reports(r), ParseAll(q, rest)) && q.state == NodeStart
  {
    hide ParseAll, Byte, WithRole, Join, FitAll, AfterFields, PrintSlots, Before;
    var words, f := Join(Words(r), 0), FieldsOf(r);
    var p7 := Parser(Field, p.len, 7, f, -1, -1);
    RecordStarts(r);
    FirstWords(p.len, r);
    var tail := PrintAllSlots(r.slots) + ['\n'] + rest;
    assert PrintRecord(r) + rest == words + tail;
    EnterLine(p, words + tail);
    JoinRun(LineStart(p.len), Words(r), 0, tail);
    if r.slots == [] {
      assert tail == ['\n'] + rest;
      ByteThenAll(p7, '\n', rest);
      LineEnds(p7);
      q := p7.(state := NodeStart);
    } else {
      var s := PrintSlots(r.slots[0]) + PrintAllSlots(r.slots[1..]) + ['\n'] + rest;
      assert tail == [' '] + s;
      ByteThenAll(p7, ' ', s);
      SlotsStart(p7);
      q := AllItems(p.len, 8, f, r.slots, rest);
    }
  }

  lemma {:induction false} LineEnds(p: Parser)
    requires p.state == Field
    ensures Byte(p, '\n') == Node(p.(state := NodeStart)) && Enter(p.(state := NodeStart)) == p.(state := NodeStart)
  {
  }

  lemma {:induction false} SlotsStart(p: Parser)
    requires p.state == Field && p.cnt == 7 && p.slotBegin == -1 && p.slotEnd == -1
    ensures Byte(p, ' ') == Go(AtSlots(p.len, 8, p.f))
  {
  }

  lemma {:induction false} RecordsRun(p: Parser, rs: seq<Record>, rest: string) returns (q: Parser)
    requires p.state == NodeStart && forall i :: 0 <= i < |rs| ==> WellFormed(rs[i])
    ensures ParseAll(p, PrintRecords(rs) + rest) == Before(AllReports(rs), ParseAll(q, rest)) && q.state == NodeStart
    decreases |rs|
  {
    hide ParseAll, PrintRecord, Before, WellFormed, Reports;
    if rs == [] {
      assert PrintRecords(rs) + rest == rest;
      q := p;
      NothingBefore(ParseAll(q, rest));
    } else {
      var s := PrintRecords(rs[1..]) + rest;
      assert PrintRecords(rs) + rest == PrintRecord(rs[0]) + s;
      var q1 := RecordRun(p, rs[0], s);
      q := RecordsRun(q1, rs[1..], rest);
      BeforeBefore(Reports(rs[0]), AllReports(rs[1..]), ParseAll(q, rest));
    }
  }

  lemma {:induction false} LenRun(p: Parser, ds: string, rest: string)
    requires p.state == Len && AllDigits(ds)
    ensures ParseAll(p, ds + rest) == ParseAll(p.(len := Accumulate(p.len, ds)), rest)
    decreases |ds|
  {
    if ds == [] {
      assert ds + rest == rest;
    } else {
      assert (ds + rest)[0] == ds[0] && (ds + rest)[1..] == ds[1..] + rest;
      LenRun(p.(len := p.len * 10 + DigitValue(ds[0])), ds[1..], rest);
    }
  }

  /** Whatever well-formed records are printed, the calls of `parse` report the fields of each and exactly the slots
      that are not being moved, in order, and then that they are done. */
  lemma {:induction false} ParseAfterPrint(rs: seq<Record>)
    requires forall i :: 0 <= i < |rs| ==> WellFormed(rs[i])
    ensures ParseAll(START, Print(rs)) == (AllReports(rs), true)
  {
    hide ParseAll, PrintRecords, WellFormed, AllReports, Decimal;
    var ds := Decimal(|PrintRecords(rs)|);
    var s3 := PrintRecords(rs) + "\r\n";
    var s2 := ['\n'] + s3;
    var s1 := ['\r'] + s2;
    assert Print(rs) == ['$'] + (ds + s1);
    ByteThenAll(START, '$', ds + s1);
    var p1 := START.(state := Len);
    LenRun(p1, ds, s1);
    var p2 := p1.(len := Accumulate(p1.len, ds));
    ByteThenAll(p2, '\r', s2);
    ByteThenAll(p2.(state := LenLF), '\n', s3);
    var q := RecordsRun(p2.(state := NodeStart), rs, "\r\n");
    assert "\r\n" == ['\r'] + ['\n'];
    ByteThenAll(q, '\r', ['\n']);
    assert AllReports(rs) + [] == AllReports(rs);
  }

  // ----- what the flags say -----

  /** `strstr` finds `w` at `i`. */
  predicate OccursAt(w: string, s: string, i: nat) {
    i + |w| <= |s| && s[i..i + |w|] == w && '\0' !in s[..i + |w|]
  }

  ghost predicate Occurs(w: string, s: string) {
    exists i: nat :: OccursAt(w, s, i)
  }

  lemma {:induction false} ContainsIs(s: string, w: string)
    ensures Contains(s, w) <==> exists i: nat :: i + |w| <= |s| && w <= s[i..]
  {
    if w <= s {
      assert s[0..] == s;
    } else if s != [] {
      ContainsIs(s[1..], w);
      if i: nat :| i + |w| <= |s[1..]| && w <= s[1..][i..] { assert s[i + 1..] == s[1..][i..]; }
      if i: nat :| i + |w| <= |s| && w <= s[i..] {
        assert s[0..] == s;
        assert s[1..][i - 1..] == s[i..];
      }
    }
  }

  /** What is looked for in the flags is found where it occurs in front of any zero byte. */
  lemma {:induction false} FlagOccurs(flags: string, w: string)
    ensures Contains(CString(flags), w) <==> Occurs(w, flags)
  {
    hide Contains, CString, OccursAt;
    ContainsIs(CString(flags), w);
    if i: nat :| i + |w| <= |CString(flags)| && w <= CString(flags)[i..] { FoundOccurs(flags, w, i); }
    if i: nat :| OccursAt(w, flags, i) { OccursFound(flags, w, i); }
  }

  lemma {:induction false} FoundOccurs(s: string, w: string, i: nat)
    requires i + |w| <= |CString(s)| && w <= CString(s)[i..]
    ensures OccursAt(w, s, i)
  {
    var c := CString(s);
    assert c == s[..|c|];
    assert s[..i + |w|] == c[..i + |w|];
    assert s[i..i + |w|] == c[i..][..|w|];
  }

  lemma {:induction false} OccursFound(s: string, w: string, i: nat)
    requires OccursAt(w, s, i)
    ensures i + |w| <= |CString(s)| && w <= CString(s)[i..]
  {
    hide CString;
    BeforeZero(s, i + |w|);
    assert CString(s)[i..][..|w|] == CString(s)[..i + |w|][i..] == s[..i + |w|][i..] == s[i..i + |w|];
  }

  lemma {:induction false} BeforeZero(s: string, n: nat)
    requires n <= |s| && '\0' !in s[..n]
    ensures n <= |CString(s)| && CString(s)[..n] == s[..n]
  {
    assert IndexOf(s, '\0') >= n by { NoZeroInFront(s, n); }
  }

  lemma {:induction false} NoZeroInFront(s: string, n: nat)
    requires n <= |s| && '\0' !in s[..n]
    ensures n <= IndexOf(s, '\0')
  {
    if n > 0 {
      assert s[..n][0] == s[0] && s[1..][..n - 1] == s[..n][1..];
      NoZeroInFront(s[1..], n - 1);
    }
  }

  /** Whatever is reported of a record: the role that the first of "master" and "slave" in its flags says, the address
      unless there is "noaddr", and all else as it was printed. */
  lemma {:induction false} FieldsAreReported(r: Record, k: nat)
    requires k < |Reports(r)|
    ensures var f := Reports(r)[k].f;
            && f.role == (if Occurs("master", r.flags) then Master else if Occurs("slave", r.flags) then Slave else Unknown)
            && f.addr == (if Occurs("noaddr", r.flags) then [] else r.addr)
            && f.nodeId == r.nodeId && f.flags == r.flags && f.master == r.master
  {
    hide Contains, Occurs, CString;
    FlagOccurs(r.flags, "master");
    FlagOccurs(r.flags, "slave");
    FlagOccurs(r.flags, "noaddr");
    if r.slots != [] { SameFields(FieldsOf(r), r.slots, k); }
  }

  lemma {:induction false} SameFields(f: Fields, xs: seq<Slots>, k: nat)
    requires k < |SlotReports(f, xs)|
    ensures SlotReports(f, xs)[k].f == f
  {
    var one := ItemReports(f, xs[0], |xs| == 1);
    assert SlotReports(f, xs) == one + SlotReports(f, xs[1..]);
    if k >= |one| { SameFields(f, xs[1..], k - |one|); }
  }

  /** The reports that come with slots. */
  function WithSlots(rs: seq<Report>): seq<Report> {
    if rs == [] then [] else (if rs[0].HasSlots() then [rs[0]] else []) + WithSlots(rs[1..])
  }

  /** The slots of the records that are not being moved, in the order of the text. */
  function Owned(f: Fields, xs: seq<Slots>): seq<Report> {
    if xs == [] then []
    else (match xs[0]
          case Range(b, e) => [Report(f, b, e + 1)]
          case Single(b) => [Report(f, b, b + 1)]
          case Moving(_) => []) + Owned(f, xs[1..])
  }

  function AllOwned(rs: seq<Record>): seq<Report> {
    if rs == [] then [] else Owned(FieldsOf(rs[0]), rs[0].slots) + AllOwned(rs[1..])
  }

  predicate Ordered(r: Record) {
    forall i :: 0 <= i < |r.slots| && r.slots[i].Range? ==> r.slots[i].b <= r.slots[i].e
  }

  lemma {:induction false} WithSlotsConcat(a: seq<Report>, b: seq<Report>)
    ensures WithSlots(a + b) == WithSlots(a) + WithSlots(b)
  {
    hide Report.HasSlots;
    if a == [] {
      assert a + b == b;
    } else {
      WithSlotsConcat(a[1..], b);
      assert (a + b)[1..] == a[1..] + b && (a + b)[0] == a[0];
      var first := if a[0].HasSlots() then [a[0]] else [];
      assert WithSlots(a + b) == first + WithSlots(a[1..] + b);
      Assoc(first, WithSlots(a[1..]), WithSlots(b));
    }
  }

  lemma {:induction false} ItemsOwned(f: Fields, xs: seq<Slots>)
    requires forall i :: 0 <= i < |xs| && xs[i].Range? ==> xs[i].b <= xs[i].e
    ensures WithSlots(SlotReports(f, xs)) == Owned(f, xs)
  {
    if xs != [] {
      hide WithSlots;
      var one := ItemReports(f, xs[0], |xs| == 1);
      assert SlotReports(f, xs) == one + SlotReports(f, xs[1..]);
      WithSlotsConcat(one, SlotReports(f, xs[1..]));
      ItemsOwned(f, xs[1..]);
      OneItemOwned(f, xs[0], |xs| == 1);
    }
  }

  lemma {:induction false} OneItemOwned(f: Fields, x: Slots, last: bool)
    requires x.Range? ==> x.b <= x.e
    ensures WithSlots(ItemReports(f, x, last)) == Owned(f, [x])
  {
    var one := ItemReports(f, x, last);
    if one != [] { assert one[1..] == []; }
    assert [x][1..] == [];
  }

  /** The slots reported are exactly those that are not being moved. */
  lemma {:induction false} OwnedAreReported(rs: seq<Record>)
    requires forall i :: 0 <= i < |rs| ==> Ordered(rs[i])
    ensures WithSlots(AllReports(rs)) == AllOwned(rs)
  {
    if rs != [] {
      var f := FieldsOf(rs[0]);
      if rs[0].slots == [] {
        assert [Report(f, -1, -1)][1..] == [];
        assert WithSlots(Reports(rs[0])) == [];
      } else {
        ItemsOwned(f, rs[0].slots);
      }
      WithSlotsConcat(Reports(rs[0]), AllReports(rs[1..]));
      OwnedAreReported(rs[1..]);
    }
  }
}
