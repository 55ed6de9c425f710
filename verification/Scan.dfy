/** SCAN over all groups: the number of the group is packed into the cursor, and nothing but the cursor is changed in
    requests and replies (src/Handler.cpp `preHandleRequest`, `handleResponse`, src/Request.cpp
    `adjustScanCursor`). */
module Scanning {
  import opened Bytes
  import opened Resp

  // ----- numbers -----

  const TWO_63: int := 0x8000_0000_0000_0000
  const TWO_64: int := 0x1_0000_0000_0000_0000
  /** `1 << Const::ServGroupBits` */
  const GROUPS: int := 1024
  const TWO_53: int := 0x20_0000_0000_0000
  const TWO_54: int := 0x40_0000_0000_0000

  /** The bits of an `unsigned long` as a `long`, and back. */
  function AsSigned(n: int): int
    requires 0 <= n < TWO_64
  {
    if n < TWO_63 then n else n - TWO_64
  }

  function AsUnsigned(n: int): int
    requires -TWO_63 <= n < TWO_63
  {
    if n < 0 then n + TWO_64 else n
  }

  lemma {:induction false} LowBitsFree(c: int)
    ensures (c * GROUPS) % TWO_64 <= TWO_64 - GROUPS
  {
    var q, r := (c * GROUPS) / TWO_64, (c * GROUPS) % TWO_64;
    assert r == (c - q * TWO_54) * GROUPS;
  }

  /** `cursor <<= ServGroupBits; cursor |= g->id()` on a `long` */
  function Packed(c: int, g: int): (r: int)
    requires 0 <= g < GROUPS
    ensures -TWO_63 <= r < TWO_63
  {
    assert (c * GROUPS) % TWO_64 + g < TWO_64 by { LowBitsFree(c); }
    AsSigned((c * GROUPS) % TWO_64 + g)
  }

  /** `cursor & ServGroupMask` and `cursor >> ServGroupBits` on the `unsigned long` */
  function GroupIn(n: int): int
    requires -TWO_63 <= n < TWO_63
  {
    AsUnsigned(n) % GROUPS
  }

  function CursorIn(n: int): int
    requires -TWO_63 <= n < TWO_63
  {
    AsUnsigned(n) / GROUPS
  }

  /** The group always comes back; the cursor does exactly below 2^54; and what is printed is not negative exactly
      below 2^53, or where higher bits fall out. */
  lemma {:induction false} PackingRoundTrip(c: int, g: int)
    requires 0 <= c < TWO_63 && 0 <= g < GROUPS
    ensures GroupIn(Packed(c, g)) == g && CursorIn(Packed(c, g)) == c % TWO_54
    ensures CursorIn(Packed(c, g)) == c <==> c < TWO_54
    ensures Packed(c, g) >= 0 <==> c % TWO_54 < TWO_53
    ensures c < TWO_53 ==> Packed(c, g) == c * GROUPS + g
  {
    var h, l := c / TWO_54, c % TWO_54;
    assert c * GROUPS == h * TWO_64 + l * GROUPS;
    ModuloIs(h, l * GROUPS);
    assert AsUnsigned(Packed(c, g)) == l * GROUPS + g;
  }

  lemma {:induction false} ModuloIs(h: int, r: int)
    requires h >= 0 && 0 <= r < TWO_64
    ensures (h * TWO_64 + r) % TWO_64 == r
  {
  }

  // ----- text -----

  predicate IsSpace(c: char) { c == ' ' || 9 <= c as int <= 13 }

  /** The digits that a string starts with. */
  function Digits(s: string): (d: string)
    ensures AllDigits(d) && d <= s
  {
    if s == [] || !IsDigit(s[0]) then [] else [s[0]] + Digits(s[1..])
  }

  function Clamped(n: int): int {
    if n < -TWO_63 then -TWO_63 else if n >= TWO_63 then TWO_63 - 1 else n
  }

  /** The library's `atol` */
  function Atol(s: string): (n: int)
    ensures -TWO_63 <= n < TWO_63
    decreases |s|
  {
    if s != [] && IsSpace(s[0]) then Atol(s[1..])
    else if s != [] && s[0] == '-' then Clamped(-Accumulate(0, Digits(s[1..])))
    else if s != [] && s[0] == '+' then Clamped(Accumulate(0, Digits(s[1..])))
    else Clamped(Accumulate(0, Digits(s)))
  }

  predicate NoDigitFirst(s: string) { s != [] ==> !IsDigit(s[0]) }

  lemma {:induction false} DigitsOf(d: string, rest: string)
    requires AllDigits(d) && NoDigitFirst(rest)
    ensures Digits(d + rest) == d
  {
    if d == [] {
      assert d + rest == rest;
    } else {
      assert (d + rest)[0] == d[0] && (d + rest)[1..] == d[1..] + rest;
      DigitsOf(d[1..], rest);
    }
  }

  lemma {:induction false} AtolOfPrinted(n: int, rest: string)
    requires -TWO_63 <= n < TWO_63 && NoDigitFirst(rest)
    ensures Atol(Signed(n) + rest) == n
  {
    hide Decimal;
    if n < 0 {
      var d := Decimal(-n);
      var s := Signed(n) + rest;
      assert s[0] == '-' && s[1..] == d + rest;
      DigitsOf(d, rest);
      DecimalRoundTrip(-n);
    } else {
      var d := Decimal(n);
      assert (d + rest)[0] == d[0] && IsDigit(d[0]);
      DigitsOf(d, rest);
      DecimalRoundTrip(n);
    }
  }

  /** The six characters that `atol` passes over. */
  predicate AreSpaces(s: string) { forall i :: 0 <= i < |s| ==> s[i] as int in {9, 10, 11, 12, 13, 32} }

  function Bounded(n: int): int {
    if n > 9223372036854775807 then 9223372036854775807
    else if n < -9223372036854775808 then -9223372036854775808
    else n
  }

  /** Behind spaces and one sign at most the digits are read as a number, up to the bounds of a `long`. */
  lemma {:induction false} AtolReads(spaces: string, n: nat, rest: string)
    requires AreSpaces(spaces) && NoDigitFirst(rest)
    ensures Atol(spaces + Decimal(n) + rest) == Atol(spaces + "+" + Decimal(n) + rest) == Bounded(n)
    ensures Atol(spaces + "-" + Decimal(n) + rest) == Bounded(0 - n)
  {
    hide Decimal, Digits, Accumulate, Atol;
    var d := Decimal(n);
    DecimalRoundTrip(n);
    DigitsOf(d, rest);
    SpacesArePassed(spaces, d + rest);
    SpacesArePassed(spaces, "+" + d + rest);
    SpacesArePassed(spaces, "-" + d + rest);
    assert spaces + d + rest == spaces + (d + rest);
    assert spaces + "+" + d + rest == spaces + ("+" + d + rest);
    assert spaces + "-" + d + rest == spaces + ("-" + d + rest);
    NumberIsRead(d, rest);
  }

  lemma {:induction false} SpacesArePassed(spaces: string, s: string)
    requires AreSpaces(spaces)
    ensures Atol(spaces + s) == Atol(s)
    decreases |spaces|
  {
    hide Digits, Accumulate;
    if spaces == [] {
      assert spaces + s == s;
    } else {
      assert (spaces + s)[0] == spaces[0] && (spaces + s)[1..] == spaces[1..] + s;
      SpacesArePassed(spaces[1..], s);
    }
  }

  lemma {:induction false} NumberIsRead(d: string, rest: string)
    requires d != [] && AllDigits(d) && Digits(d + rest) == d
    ensures Atol(d + rest) == Atol("+" + d + rest) == Bounded(Accumulate(0, d))
    ensures Atol("-" + d + rest) == Bounded(-Accumulate(0, d))
  {
    hide Digits, Accumulate;
    assert (d + rest)[0] == d[0] && IsDigit(d[0]);
    assert ("+" + d + rest)[0] == '+' && ("+" + d + rest)[1..] == d + rest;
    assert ("-" + d + rest)[0] == '-' && ("-" + d + rest)[1..] == d + rest;
  }

  /** A text without digits there is 0. */
  lemma {:induction false} AtolOfNoNumber(spaces: string, s: string)
    requires AreSpaces(spaces) && NoDigitFirst(s) && (s != [] ==> s[0] as int !in {9, 10, 11, 12, 13, 32, 43, 45})
    ensures Atol(spaces + s) == 0
  {
    SpacesArePassed(spaces, s);
  }

  /** `strchr`: the first `c` at or behind `from`. */
  function Find(s: string, from: nat, c: char): (r: Option<nat>)
    ensures r.Some? ==> from <= r.value < |s|
    decreases |s| - from
  {
    if from >= |s| then None else if s[from] == c then Some(from) else Find(s, from + 1, c)
  }

  lemma {:induction false} FindIs(s: string, from: nat, a: string, c: char, rest: string)
    requires from <= |s| && s[from..] == a + [c] + rest && c !in a
    ensures Find(s, from, c) == Some(from + |a|)
    decreases |a|
  {
    assert s[from] == s[from..][0] == (a + [c] + rest)[0];
    if a != [] {
      assert s[from] == a[0] && a[0] in a;
      assert s[from + 1..] == s[from..][1..] == a[1..] + [c] + rest;
      FindIs(s, from + 1, a[1..], c, rest);
    }
  }

  /** Whether a segment lies across buffers, or in one, with what stands in that behind it. */
  datatype Place = Across | Inside(behind: string)

  /** What `strchr` runs through in a `SegmentStr<64>`: a copy of the first 64 bytes if the segment lies across
      buffers, and else the buffer itself. */
  function Searched(s: string, at: Place): string {
    match at
    case Across => if |s| <= 64 then s else s[..64]
    case Inside(behind) => s + behind
  }

  /** What is found in the text is found there, if a copy reaches as far. */
  lemma {:induction false} FindSearched(s: string, from: nat, c: char, at: Place)
    requires Find(s, from, c).Some? && (at.Across? ==> Find(s, from, c).value < 64)
    ensures Find(Searched(s, at), from, c) == Find(s, from, c)
    decreases |s| - from
  {
    if s[from] != c { FindSearched(s, from + 1, c, at); }
  }

  // ----- the request -----

  /** `adjustScanCursor` on a request without a head: the new head, and what stays of the request. */
  function AdjustRequest(req: string, keyLen: nat, cursor: int, at: Place): (string, string) {
    var str := Searched(req, at);
    match Find(str, 0, '$')
    case None => ([], req)
    case Some(i) =>
      match Find(str, i + 1, '$')
      case None => ([], req)
      case Some(p) =>
        var head := str[..p] + EncodeBulk(Signed(cursor));
        match Find(str, p, '\r')
        case None => (head, req)
        case Some(q) => (head, Behind(req, q + 2 + keyLen + 2))
  }

  /** The parts of a request up to the line with the length of the cursor. */
  function Front(args: seq<string>): string
    requires |args| >= 2
  {
    "*" + Decimal(|args|) + CRLF + EncodeBulk(args[0])
  }

  lemma {:induction false} RequestParts(args: seq<string>)
    requires |args| >= 2
    ensures EncodeCommand(args) == Front(args) + EncodeBulk(args[1]) + EncodeBulks(args[2..])
  {
    hide EncodeBulk, Decimal;
    assert args[1..][1..] == args[2..] && args[1..][0] == args[1];
    assert EncodeBulks(args) == EncodeBulk(args[0]) + (EncodeBulk(args[1]) + EncodeBulks(args[2..]));
    var d := "*" + Decimal(|args|) + CRLF;
    assert d + (EncodeBulk(args[0]) + (EncodeBulk(args[1]) + EncodeBulks(args[2..])))
        == (d + EncodeBulk(args[0])) + EncodeBulk(args[1]) + EncodeBulks(args[2..]);
  }

  lemma {:induction false} DigitsAreNot(d: string, c: char)
    requires AllDigits(d) && !IsDigit(c)
    ensures c !in d
  {
  }

  /** Nothing but the cursor changes in a request that lies in one buffer, or whose first 64 bytes reach to the cursor. */
  lemma {:induction false} RequestOnlyChangesCursor(args: seq<string>, cursor: int, at: Place)
    requires |args| >= 2 && '$' !in args[0]
    requires at.Across? ==> |Front(args)| + 1 + |Decimal(|args[1]|)| < 64
    ensures var (head, body) := AdjustRequest(EncodeCommand(args), |args[1]|, cursor, at);
            && head + body == EncodeCommand(args[1 := Signed(cursor)])
            && head == Front(args) + EncodeBulk(Signed(cursor)) && body == EncodeBulks(args[2..])
  {
    hide Decimal, EncodeBulks, EncodeBulk, Find, Searched, EncodeCommand, Front, Behind;
    var req, front := EncodeCommand(args), Front(args);
    CursorLine(args, at);
    var args' := args[1 := Signed(cursor)];
    RequestParts(args');
    SameFront(args, args');
    assert args'[2..] == args[2..];
  }

  /** A number that fits an `int` has ten digits at most. */
  lemma {:induction false} IntLength(n: nat)
    requires n < 0x8000_0000
    ensures |Decimal(n)| <= 10
  {
    assert Power(5) == 10 * 10 * 10 * 10 * 10;
    PowerAdds(5, 5);
    DecimalLength(n, 10);
  }

  lemma {:induction false} FourIsOneDigit()
    ensures |Decimal(4)| == 1
  {
  }

  /** A name of four bytes, as SCAN has, always leaves room for the line with the length of the cursor. */
  lemma {:induction false} ShortNameFits(args: seq<string>)
    requires |args| >= 2 && |args| < 0x8000_0000 && |args[0]| == 4
    ensures |Front(args)| <= 23
  {
    hide Decimal;
    IntLength(|args|);
    FourIsOneDigit();
  }

  /** So nothing but the cursor changes in any SCAN, wherever its bytes lie. */
  lemma {:induction false} ScanOnlyChangesCursor(args: seq<string>, cursor: int, at: Place)
    requires 2 <= |args| < 0x8000_0000 && |args[0]| == 4 && '$' !in args[0] && |args[1]| < 0x8000_0000
    ensures var (head, body) := AdjustRequest(EncodeCommand(args), |args[1]|, cursor, at);
            && head + body == EncodeCommand(args[1 := Signed(cursor)])
            && head == Front(args) + EncodeBulk(Signed(cursor)) && body == EncodeBulks(args[2..])
  {
    hide AdjustRequest, EncodeCommand, Front, EncodeBulk, EncodeBulks, Decimal;
    ShortNameFits(args);
    IntLength(|args[1]|);
    RequestOnlyChangesCursor(args, cursor, at);
  }

  lemma {:induction false} SameFront(a: seq<string>, b: seq<string>)
    requires |a| == |b| >= 2 && a[0] == b[0]
    ensures Front(a) == Front(b)
  {
  }

  /** Where the line with the length of the cursor starts and ends, and what is behind the cursor. */
  lemma {:induction false} CursorLine(args: seq<string>, at: Place)
    requires |args| >= 2 && '$' !in args[0]
    requires at.Across? ==> |Front(args)| + 1 + |Decimal(|args[1]|)| < 64
    ensures var (req, front, q) := (EncodeCommand(args), Front(args), |Front(args)| + 1 + |Decimal(|args[1]|)|);
            && Find(Searched(req, at), 0, '$').Some?
            && Find(Searched(req, at), Find(Searched(req, at), 0, '$').value + 1, '$') == Some(|front|)
            && Find(Searched(req, at), |front|, '\r') == Some(q)
            && |front| <= |Searched(req, at)| && Searched(req, at)[..|front|] == front
            && Behind(req, q + 2 + |args[1]| + 2) == EncodeBulks(args[2..])
  {
    hide Decimal, EncodeBulks, Find, EncodeCommand, Front;
    var req, front, rest := EncodeCommand(args), Front(args), EncodeBulks(args[2..]);
    var len := Decimal(|args[1]|);
    var more := ['\n'] + args[1] + CRLF + rest;
    RequestParts(args);
    CursorBulk(args[1]);
    assert req == front + ['$'] + (len + ['\r'] + more);
    FindMarks(args, req, len + ['\r'] + more, at);
    assert req[|front|..] == (['$'] + len) + ['\r'] + more;
    DigitsAreNot(len, '\r');
    FindIs(req, |front|, ['$'] + len, '\r', more);
    FindSearched(req, |front|, '\r', at);
    assert req == (front + ['$'] + len + CRLF + args[1] + CRLF) + rest;
  }

  lemma {:induction false} CursorBulk(arg: string)
    ensures EncodeBulk(arg) == ['$'] + Decimal(|arg|) + ['\r'] + (['\n'] + arg + CRLF)
  {
    hide Decimal;
  }

  /** The second dollar sign is the one in front of the length of the cursor. */
  lemma {:induction false} FindMarks(args: seq<string>, req: string, rest: string, at: Place)
    requires |args| >= 2 && '$' !in args[0] && req == Front(args) + ['$'] + rest
    requires at.Across? ==> |Front(args)| < 64
    ensures var i := 1 + |Decimal(|args|)| + 2;
            Find(Searched(req, at), 0, '$') == Some(i) && Find(Searched(req, at), i + 1, '$') == Some(|Front(args)|)
  {
    hide Decimal, Find;
    var n, l, name := Decimal(|args|), Decimal(|args[0]|), args[0];
    var a := "*" + n + CRLF;
    var b := l + CRLF + name + CRLF;
    DigitsAreNot(n, '$');
    DigitsAreNot(l, '$');
    assert Front(args) == a + ['$'] + b;
    assert req == a + ['$'] + (b + ['$'] + rest) && req[0..] == req;
    FindIs(req, 0, a, '$', b + ['$'] + rest);
    FindSearched(req, 0, '$', at);
    assert req[|a| + 1..] == b + ['$'] + rest;
    FindIs(req, |a| + 1, b, '$', rest);
    FindSearched(req, |a| + 1, '$', at);
  }

  // ----- the reply -----

  /** The reply of the server of group `g`; `more` tells whether there is a group behind it. */
  function AdjustReply(body: string, g: nat, more: bool, at: Place): (string, string)
    requires g + 1 < GROUPS || !more
    requires g < GROUPS
  {
    var str := Searched(body, at);
    match Find(str, 6, '\n')
    case None => ([], body)
    case Some(p) =>
      var cursor := Atol(str[p + 1..]);
      if cursor == 0 && !more then ([], body)
      else
        match Find(str, p, '*')
        case None => ([], body)
        case Some(q) =>
          ("*2\r\n" + EncodeBulk(Signed(Packed(cursor, if cursor != 0 then g else g + 1))), Behind(body, q))
  }

  /** The cursor that the client is given. */
  function NextCursor(c: nat, g: nat, more: bool): int
    requires c < TWO_63 && g < GROUPS && (g + 1 < GROUPS || !more)
  {
    if c != 0 then Packed(c, g) else if more then Packed(0, g + 1) else 0
  }

  function ScanReply(cursor: int, elems: seq<Reply>): Reply { Array([Bulk(Signed(cursor)), Array(elems)]) }

  lemma {:induction false} ReplyParts(cursor: int, elems: seq<Reply>)
    ensures Encode(ScanReply(cursor, elems)) == "*2\r\n" + EncodeBulk(Signed(cursor)) + Encode(Array(elems))
  {
    hide EncodeBulk;
    var b, a := Bulk(Signed(cursor)), Array(elems);
    assert Decimal(2) == "2";
    assert [b, a][1..] == [a] && [a][1..] == [];
    assert EncodeAll([a]) == Encode(a) + EncodeAll([a][1..]) == Encode(a);
    assert EncodeAll([b, a]) == Encode(b) + EncodeAll([b, a][1..]);
    assert "*" + "2" + CRLF == "*2\r\n";
  }

  lemma {:induction false} SignedIsPlain(n: int, c: char)
    requires !IsDigit(c) && c != '-'
    ensures c !in Signed(n)
  {
    hide Decimal;
    DigitsAreNot(Decimal(if n < 0 then -n else n), c);
  }

  /** Cursors are short. */
  lemma {:induction false} DecimalLength(n: nat, d: nat)
    requires d > 0 && n < Power(d)
    ensures |Decimal(n)| <= d
    decreases d
  {
    if n >= 10 {
      assert d > 1;
      DecimalLength(n / 10, d - 1);
    }
  }

  function Power(d: nat): int { if d == 0 then 1 else 10 * Power(d - 1) }

  lemma {:induction false} CursorLength(c: nat)
    requires c < TWO_63
    ensures |Decimal(c)| <= 19 && |Decimal(|Decimal(c)|)| <= 2
  {
    assert Power(4) == 10 * 10 * 10 * 10;
    PowerAdds(4, 4);
    PowerAdds(8, 8);
    PowerAdds(16, 3);
    assert Power(3) == 10 * 10 * 10;
    DecimalLength(c, 19);
    assert Power(2) == 10 * 10;
    DecimalLength(|Decimal(c)|, 2);
  }

  lemma {:induction false} PowerAdds(a: nat, b: nat)
    ensures Power(a + b) == Power(a) * Power(b)
  {
    if a > 0 {
      PowerAdds(a - 1, b);
    }
  }

  /** What is read behind position `p` is the cursor. */
  lemma {:induction false} ReadCursor(body: string, p: nat, c: nat, list: string, at: Place)
    requires p < |body| && body[p + 1..] == Signed(c) + CRLF + list && c < TWO_63
    requires p + 1 + |Signed(c)| < 64
    ensures p + 1 <= |Searched(body, at)| && Atol(Searched(body, at)[p + 1..]) == c
  {
    hide Atol, Decimal, Signed;
    var text, w := Signed(c), Searched(body, at);
    var n := p + 1 + |text|;
    assert |body| > n && body[n] == body[p + 1..][|text|] == '\r';
    assert n < |w| && w[n] == '\r';
    forall k | 0 <= k < |text| ensures w[p + 1 + k] == text[k] {
      assert body[p + 1..][k] == text[k];
    }
    assert w[p + 1..] == text + w[n..];
    AtolOfPrinted(c, w[n..]);
  }

  /** The bytes of a reply, around its cursor. */
  lemma {:induction false} ReplyBytes(c: nat, elems: seq<Reply>) returns (l: string, list: string)
    requires c < TWO_63
    ensures 0 < |l| <= 2 && AllDigits(l) && |Signed(c)| <= 19
    ensures list == Encode(Array(elems)) && list != [] && list[0] == '*'
    ensures Encode(ScanReply(c, elems)) == "*2\r\n$" + l + "\r" + "\n" + (Signed(c) + CRLF + list)
  {
    hide Encode, Decimal, ScanReply;
    l, list := Decimal(|Signed(c)|), Encode(Array(elems));
    ReplyParts(c, elems);
    CursorLength(c);
    ListStarts(elems);
    assert CRLF == "\r" + "\n";
    assert "*2\r\n" + ("$" + l + CRLF + Signed(c) + CRLF) + list == "*2\r\n$" + l + "\r" + "\n" + (Signed(c) + CRLF + list);
  }

  /** Where the cursor and the list of a reply are found. */
  lemma {:induction false} ReplyMarks(c: nat, elems: seq<Reply>, at: Place) returns (p: nat, q: nat)
    requires c < TWO_63
    ensures var body := Encode(ScanReply(c, elems));
            && Find(Searched(body, at), 6, '\n') == Some(p) && p < |Searched(body, at)| && Atol(Searched(body, at)[p + 1..]) == c
            && Find(Searched(body, at), p, '*') == Some(q) && Behind(body, q) == Encode(Array(elems))
  {
    hide Find, Decimal, Encode, Atol, ScanReply, Searched, Signed;
    var body, text := Encode(ScanReply(c, elems)), Signed(c);
    var l, list := ReplyBytes(c, elems);
    var line := "\n" + text + CRLF;
    var front := "*2\r\n$" + l + "\r";
    p, q := 6 + |l|, 6 + |l| + |line|;
    FindCursor(body, l, text + CRLF + list, at);
    assert body[p + 1..] == text + CRLF + list;
    ReadCursor(body, p, c, list, at);
    assert body[p..] == line + list && body == (front + line) + list;
    SignedIsPlain(c, '*');
    FindList(body, p, line, list, at);
  }

  /** Nothing but the cursor changes in a reply. */
  lemma {:induction false} ReplyOnlyChangesCursor(c: nat, elems: seq<Reply>, g: nat, more: bool, at: Place)
    requires c < TWO_63 && g < GROUPS && (g + 1 < GROUPS || !more)
    ensures var (head, body) := AdjustReply(Encode(ScanReply(c, elems)), g, more, at);
            head + body == Encode(ScanReply(NextCursor(c, g, more), elems))
  {
    hide Find, Encode, Atol, Packed, ScanReply, EncodeBulk, Searched, Signed, Behind;
    var body := Encode(ScanReply(c, elems));
    var p, q := ReplyMarks(c, elems, at);
    if c != 0 || more {
      ReplyParts(NextCursor(c, g, more), elems);
    } else {
      assert [] + body == body;
    }
  }

  lemma {:induction false} ListStarts(elems: seq<Reply>)
    ensures Encode(Array(elems))[0] == '*'
  {
    hide EncodeAll, Decimal;
  }

  /** The first line end behind the sixth byte is that of the line with the length of the cursor. */
  lemma {:induction false} FindCursor(body: string, l: string, rest: string, at: Place)
    requires 0 < |l| <= 2 && AllDigits(l) && body == "*2\r\n$" + l + "\r" + "\n" + rest
    ensures Find(Searched(body, at), 6, '\n') == Some(6 + |l|)
  {
    hide Find;
    var a := l[1..] + "\r";
    DigitsAreNot(l[1..], '\n');
    assert body[6..] == a + ['\n'] + rest;
    FindIs(body, 6, a, '\n', rest);
    FindSearched(body, 6, '\n', at);
  }

  /** The first asterisk behind the cursor starts the list. */
  lemma {:induction false} FindList(body: string, p: nat, line: string, list: string, at: Place)
    requires p + |line| < 64 && p <= |body| && body[p..] == line + list && '*' !in line && list != [] && list[0] == '*'
    ensures Find(Searched(body, at), p, '*') == Some(p + |line|)
  {
    hide Find;
    assert list == ['*'] + list[1..];
    assert body[p..] == line + ['*'] + list[1..];
    FindIs(body, p, line, '*', list[1..]);
    FindSearched(body, p, '*', at);
  }
}
