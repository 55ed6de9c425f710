/** A client that scans with the cursors it is given, until it gets 0 (src/Handler.cpp `preHandleRequest`,
    `handleResponse`). */
module FullScans {
  import opened Bytes
  import opened Resp
  import opened Scanning

  /** Servers give cursors that fit a `long`. */
  type Cursor = c: nat | c < TWO_63 witness 0

  /** The cursors under which the master of a group gives its pages, one after the other; `None` if the group has no
      master. */
  type Pages = Option<seq<Cursor>>

  /** A scan of one server starts with cursor 0 and does not come back to a cursor. */
  predicate Stable(v: seq<Cursor>) {
    && v != [] && v[0] == 0 && (forall i :: 0 < i < |v| ==> 0 < v[i] < TWO_53)
    && forall i, j :: 0 <= i < j < |v| ==> v[i] != v[j]
  }

  predicate StableMasters(gs: seq<Pages>) {
    0 < |gs| <= GROUPS && forall g :: 0 <= g < |gs| && gs[g].Some? ==> Stable(gs[g].value)
  }

  /** The cursor that a server gives with the page of cursor `c`. */
  function After(v: seq<Cursor>, c: nat): Cursor {
    if v == [] then 0 else if v[0] == c then (if |v| == 1 then 0 else v[1]) else After(v[1..], c)
  }

  lemma {:induction false} AfterIs(v: seq<Cursor>, i: nat)
    requires i < |v| && forall j, k :: 0 <= j < k < |v| ==> v[j] != v[k]
    ensures After(v, v[i]) == if i + 1 < |v| then v[i + 1] else 0
  {
    if i > 0 { AfterIs(v[1..], i - 1); }
  }

  /** The first group from `g` on that has a master. */
  function FirstMaster(gs: seq<Pages>, g: nat): (r: Option<nat>)
    ensures r.Some? ==> g <= r.value < |gs| && gs[r.value].Some? && forall h :: g <= h < r.value ==> gs[h] == None
    ensures r == None ==> forall h :: g <= h < |gs| ==> gs[h] == None
    decreases |gs| - g
  {
    if g >= |gs| then None else if gs[g].Some? then Some(g) else FirstMaster(gs, g + 1)
  }

  /** What a SCAN with the given cursor gets: an error, an end without a page, or the page of a server under its own
      cursor together with the cursor to go on with. */
  datatype Answer = Invalid | ScanEnd | Page(g: nat, c: nat, next: string)

  function Scan(gs: seq<Pages>, text: string): Answer
    requires |gs| <= GROUPS
  {
    var cursor := Atol(text);
    var g := GroupIn(cursor);
    if g >= |gs| then Invalid else
    match FirstMaster(gs, g)
    case None => ScanEnd
    case Some(h) =>
      // the cursor 0 is passed on as it came
      var c := if cursor != 0 then CursorIn(cursor) else 0;
      Page(h, c, Signed(NextCursor(After(gs[h].value, c), h, h + 1 < |gs|)))
  }

  datatype Visit = Visit(g: nat, c: nat)

  /** The pages of group `g` from the `i`-th on. */
  function PagesOf(g: nat, v: seq<nat>, i: nat): (r: seq<Visit>)
    requires i <= |v|
    ensures |r| == |v| - i
    decreases |v| - i
  {
    if i == |v| then [] else [Visit(g, v[i])] + PagesOf(g, v, i + 1)
  }

  /** All pages of all groups from `g` on. */
  function AllPages(gs: seq<Pages>, g: nat): seq<Visit>
    requires g <= |gs|
    decreases |gs| - g
  {
    if g == |gs| then [] else (if gs[g].Some? then PagesOf(g, gs[g].value, 0) else []) + AllPages(gs, g + 1)
  }

  /** The next page is page `i` of group `g`. */
  predicate At(gs: seq<Pages>, g: nat, i: nat) {
    g < |gs| && (i > 0 ==> gs[g].Some? && i < |gs[g].value|)
  }

  /** What is left when page `i` of group `g` is the next. */
  function Rest(gs: seq<Pages>, g: nat, i: nat): seq<Visit>
    requires At(gs, g, i)
  {
    (if gs[g].Some? then PagesOf(g, gs[g].value, i) else []) + AllPages(gs, g + 1)
  }

  function CursorAt(gs: seq<Pages>, g: nat, i: nat): nat
    requires At(gs, g, i)
  {
    if i == 0 then 0 else gs[g].value[i]
  }

  function TextAt(gs: seq<Pages>, g: nat, i: nat): string
    requires At(gs, g, i) && |gs| <= GROUPS
  {
    Signed(Packed(CursorAt(gs, g, i), g))
  }

  lemma {:induction false} SkipGroups(gs: seq<Pages>, g: nat, h: nat)
    requires g <= h <= |gs| && forall k :: g <= k < h ==> gs[k] == None
    ensures AllPages(gs, g) == AllPages(gs, h)
    decreases h - g
  {
    hide PagesOf;
    if g < h {
      SkipGroups(gs, g + 1, h);
      assert [] + AllPages(gs, g + 1) == AllPages(gs, g + 1);
    }
  }

  /** The page that is next is the one that is given, and the cursor with it leads to the one behind. */
  lemma {:induction false} ScanStep(gs: seq<Pages>, g: nat, i: nat) returns (h: nat, j: nat)
    requires StableMasters(gs) && At(gs, g, i)
    ensures Scan(gs, TextAt(gs, g, i)) == ScanEnd ==> Rest(gs, g, i) == []
    ensures !Scan(gs, TextAt(gs, g, i)).Invalid?
    ensures Scan(gs, TextAt(gs, g, i)) == ScanEnd ==> gs[|gs| - 1] == None
    ensures Scan(gs, TextAt(gs, g, i)).Page? ==>
              var a := Scan(gs, TextAt(gs, g, i));
              if a.next == "0" then Rest(gs, g, i) == [Visit(a.g, a.c)] && gs[|gs| - 1].Some?
              else At(gs, h, j) && a.next == TextAt(gs, h, j) && Rest(gs, g, i) == [Visit(a.g, a.c)] + Rest(gs, h, j)
  {
    hide Atol, Packed, Signed, NextCursor, Stable;
    h, j := 0, 0;
    var c := CursorAt(gs, g, i);
    ReadBack(gs, g, i);
    var m := FirstMaster(gs, g);
    if m == None {
      SkipGroups(gs, g, |gs|);
      assert gs[g] == None;
    } else {
      h, j := NextPage(gs, g, i, m.value);
    }
  }

  /** The text of a cursor is read as the group and the cursor that are in it. */
  lemma {:induction false} ReadBack(gs: seq<Pages>, g: nat, i: nat)
    requires StableMasters(gs) && At(gs, g, i)
    ensures var n := Atol(TextAt(gs, g, i));
            GroupIn(n) == g && (if n != 0 then CursorIn(n) else 0) == CursorAt(gs, g, i)
  {
    hide Atol, Packed, Signed;
    var c := CursorAt(gs, g, i);
    PackingRoundTrip(c, g);
    AtolOfPrinted(Packed(c, g), "");
    assert Signed(Packed(c, g)) + "" == Signed(Packed(c, g));
  }

  lemma {:induction false} NextPage(gs: seq<Pages>, g: nat, i: nat, m: nat) returns (h: nat, j: nat)
    requires StableMasters(gs) && At(gs, g, i) && FirstMaster(gs, g) == Some(m)
    ensures var c := CursorAt(gs, g, i);
            var next := Signed(NextCursor(After(gs[m].value, c), m, m + 1 < |gs|));
            if next == "0" then Rest(gs, g, i) == [Visit(m, c)] && gs[|gs| - 1].Some?
            else At(gs, h, j) && next == TextAt(gs, h, j) && Rest(gs, g, i) == [Visit(m, c)] + Rest(gs, h, j)
  {
    hide Atol, Packed, Signed, After, PagesOf, Rest, AllPages;
    var v, c := gs[m].value, CursorAt(gs, g, i);
    var at := if m == g then i else 0;
    assert Stable(v) && at < |v| && v[at] == c;
    AfterIs(v, at);
    RestAtMaster(gs, g, i, m);
    PagesStep(m, v, at);
    var rest := AllPages(gs, m + 1);
    if at + 1 < |v| {
      h, j := m, at + 1;
      RestWithin(gs, m, at + 1);
      NotZero(v[at + 1], m);
      Assoc([Visit(m, c)], PagesOf(m, v, at + 1), rest);
    } else if m + 1 < |gs| {
      h, j := m + 1, 0;
      NotZero(0, m + 1);
      RestOfGroups(gs, m + 1);
      assert [Visit(m, c)] + [] == [Visit(m, c)];
    } else {
      h, j := 0, 0;
      NothingBehind(gs);
      ZeroIsZero();
      assert ([Visit(m, c)] + []) + [] == [Visit(m, c)];
    }
  }

  lemma {:induction false} RestAtMaster(gs: seq<Pages>, g: nat, i: nat, m: nat)
    requires StableMasters(gs) && At(gs, g, i) && FirstMaster(gs, g) == Some(m)
    ensures var at := if m == g then i else 0;
            at < |gs[m].value| && Rest(gs, g, i) == PagesOf(m, gs[m].value, at) + AllPages(gs, m + 1)
  {
    hide PagesOf;
    if m != g {
      SkipGroups(gs, g + 1, m);
      assert [] + AllPages(gs, g + 1) == AllPages(gs, m);
    }
  }

  lemma {:induction false} RestWithin(gs: seq<Pages>, g: nat, i: nat)
    requires g < |gs| && gs[g].Some? && i < |gs[g].value|
    ensures At(gs, g, i) && Rest(gs, g, i) == PagesOf(g, gs[g].value, i) + AllPages(gs, g + 1)
  {
    hide PagesOf, AllPages;
  }

  lemma {:induction false} NothingBehind(gs: seq<Pages>)
    ensures AllPages(gs, |gs|) == []
  {
  }

  lemma {:induction false} RestOfGroups(gs: seq<Pages>, g: nat)
    requires g < |gs|
    ensures At(gs, g, 0) && Rest(gs, g, 0) == AllPages(gs, g)
  {
    hide PagesOf;
  }

  lemma {:induction false} PagesStep(g: nat, v: seq<nat>, i: nat)
    requires i < |v|
    ensures PagesOf(g, v, i) == [Visit(g, v[i])] + PagesOf(g, v, i + 1) && PagesOf(g, v, |v|) == []
  {
  }

  lemma {:induction false} ZeroIsZero()
    ensures Signed(0) == "0"
  {
  }

  /** A cursor is only printed as "0" when it is 0. */
  lemma {:induction false} NotZero(c: nat, g: nat)
    requires c < TWO_53 && g < GROUPS && (c > 0 || g > 0)
    ensures Signed(Packed(c, g)) != "0"
  {
    hide Atol, Packed, Signed;
    PackingRoundTrip(c, g);
    AtolOfPrinted(Packed(c, g), "");
    AtolOfPrinted(0, "");
    ZeroIsZero();
    assert Signed(Packed(c, g)) + "" == Signed(Packed(c, g)) && Signed(0) + "" == Signed(0);
  }

  /** With masters that stay, a client that starts with 0 and goes on until it gets 0 visits every page of every
      group once, group by group. */
  method FullScan(gs: seq<Pages>) returns (visits: seq<Visit>)
    requires StableMasters(gs)
    ensures visits == AllPages(gs, 0)
  {
    hide Scan, TextAt, Rest, At, StableMasters, AllPages;
    visits := [];
    var text := "0";
    ghost var g: nat, i: nat := 0, 0;
    ScanStarts(gs);
    var going := true;
    while going
      invariant going ==> At(gs, g, i) && text == TextAt(gs, g, i) && visits + Rest(gs, g, i) == AllPages(gs, 0)
      invariant !going ==> visits == AllPages(gs, 0)
      decreases going, if going then |Rest(gs, g, i)| else 0
    {
      ghost var h, j := ScanStep(gs, g, i);
      var a := Scan(gs, text);
      match a
      case Page(k, c, next) =>
        ghost var was := visits;
        visits := visits + [Visit(k, c)];
        if next == "0" {
          going := false;
        } else {
          assert was + ([Visit(k, c)] + Rest(gs, h, j)) == visits + Rest(gs, h, j);
        }
        text, g, i := next, h, j;
      case ScanEnd =>
        assert visits + [] == visits;
        going := false;
      case Invalid =>
        going := false;
    }
  }

  lemma {:induction false} ScanStarts(gs: seq<Pages>)
    requires StableMasters(gs)
    ensures At(gs, 0, 0) && TextAt(gs, 0, 0) == "0" && [] + Rest(gs, 0, 0) == AllPages(gs, 0) && |gs| <= GROUPS
  {
    PackingRoundTrip(0, 0);
    ZeroIsZero();
  }

  // ----- the same in bytes -----

  const SCAN_END := "*2\r\n$1\r\n0\r\n*0\r\n"
  const INVALID_CURSOR := "-ERR invalid cursor\r\n"

  /** What the master of a group answers to the bytes of a request. */
  type Servers = (nat, string) -> string

  /** Where the bytes of a request or reply lie. */
  type Places = string -> Place

  function ScanArgs(name: string, text: string, opts: seq<string>): seq<string> { [name, text] + opts }

  /** The bytes sent to the server: the cursor 0 is passed on as it came. */
  function ToServer(args: seq<string>, n: int, places: Places): string
    requires |args| >= 2 && -TWO_63 <= n < TWO_63
  {
    if n != 0 then
      var (head, body) := AdjustRequest(EncodeCommand(args), |args[1]|, CursorIn(n), places(EncodeCommand(args)));
      head + body
    else EncodeCommand(args)
  }

  /** The bytes that a client gets for the bytes of its request. */
  function ProxyScan(gs: seq<Pages>, serve: Servers, places: Places, args: seq<string>): string
    requires |gs| <= GROUPS && |args| >= 2
  {
    var n := Atol(args[1]);
    var g := GroupIn(n);
    if g >= |gs| then INVALID_CURSOR else
    match FirstMaster(gs, g)
    case None => SCAN_END
    case Some(h) =>
      var reply := serve(h, ToServer(args, n, places));
      var (head, body) := AdjustReply(reply, h, h + 1 < |gs|, places(reply));
      head + body
  }

  /** The server of group `h` answers a request with cursor `c` with the elements of the page, and the cursor of the
      page behind it. */
  predicate ServesAt(gs: seq<Pages>, serve: Servers, page: Visit -> seq<Reply>, name: string, opts: seq<string>,
                     h: nat, c: nat)
    requires h < |gs| && gs[h].Some?
  {
    serve(h, EncodeCommand(ScanArgs(name, Signed(c), opts)))
    == Encode(ScanReply(After(gs[h].value, c), page(Visit(h, c))))
  }

  ghost predicate Serve(gs: seq<Pages>, serve: Servers, page: Visit -> seq<Reply>, name: string, opts: seq<string>) {
    forall h: nat, c: nat :: h < |gs| && gs[h].Some? ==> ServesAt(gs, serve, page, name, opts, h, c)
  }

  /** Requests that lie across buffers have a name that leaves room for the cursor in the first 64 bytes. */
  ghost predicate NameFits(name: string, opts: seq<string>, places: Places) {
    '$' !in name && ((exists s :: places(s).Across?) ==> |Front(ScanArgs(name, [], opts))| + 3 < 64)
  }

  lemma {:induction false} TextIsShort(gs: seq<Pages>, g: nat, i: nat)
    requires StableMasters(gs) && At(gs, g, i)
    ensures |Decimal(|TextAt(gs, g, i)|)| <= 2
  {
    hide Decimal;
    PackingRoundTrip(CursorAt(gs, g, i), g);
    CursorLength(Packed(CursorAt(gs, g, i), g));
  }

  /** Whatever page is next, the server is asked for it under its own cursor, with all else as the client sent it. */
  lemma {:induction false} ServerIsAsked(gs: seq<Pages>, g: nat, i: nat, name: string, opts: seq<string>,
          places: Places)
    requires StableMasters(gs) && At(gs, g, i) && NameFits(name, opts, places)
    ensures ToServer(ScanArgs(name, TextAt(gs, g, i), opts), Atol(TextAt(gs, g, i)), places)
         == EncodeCommand(ScanArgs(name, Signed(CursorAt(gs, g, i)), opts))
  {
    hide AdjustRequest, EncodeCommand, Atol, Packed, Signed, Stable, Decimal, CursorIn;
    var text := TextAt(gs, g, i);
    var args, n, c := ScanArgs(name, text, opts), Atol(text), CursorAt(gs, g, i);
    ReadBack(gs, g, i);
    ZeroText(gs, g, i);
    TextIsShort(gs, g, i);
    FrontOfArgs(name, text, opts);
    assert args[1 := Signed(c)] == ScanArgs(name, Signed(c), opts);
    if n != 0 { RequestOnlyChangesCursor(args, c, places(EncodeCommand(args))); }
  }

  /** The name of SCAN fits. */
  lemma {:induction false} ScanFits(name: string, opts: seq<string>, places: Places)
    requires |name| == 4 && '$' !in name && |opts| + 2 < 0x8000_0000
    ensures NameFits(name, opts, places)
  {
    hide Front;
    ShortNameFits(ScanArgs(name, [], opts));
  }

  /** A cursor whose low ten bits are no group is refused, and behind the last master the scan has ended. */
  lemma {:induction false} NoPage(gs: seq<Pages>, serve: Servers, places: Places, name: string, n: int, opts: seq<string>)
    requires |gs| <= 1024 && -TWO_63 <= n < TWO_63
    ensures var (g, a) := (n % 1024, ProxyScan(gs, serve, places, ScanArgs(name, Signed(n), opts)));
            && (Scan(gs, Signed(n)).Invalid? <==> g >= |gs|)
            && (Scan(gs, Signed(n)).ScanEnd? <==> g < |gs| && forall h :: g <= h < |gs| ==> gs[h] == None)
            && (g >= |gs| ==> a == "-ERR invalid cursor\r\n")
            && (g < |gs| && (forall h :: g <= h < |gs| ==> gs[h] == None) ==> a == "*2\r\n$1\r\n0\r\n*0\r\n")
  {
    hide Atol, Signed, ToServer, AdjustReply, Packed, After, NextCursor;
    AtolOfPrinted(n, "");
    assert Signed(n) + "" == Signed(n);
    LowTenBits(n);
  }

  lemma {:induction false} LowTenBits(n: int)
    requires -TWO_63 <= n < TWO_63
    ensures GroupIn(n) == n % 1024
  {
    if n < 0 { assert n + TWO_64 == n + 18014398509481984 * 1024; }
  }

  lemma {:induction false} FrontOfArgs(name: string, text: string, opts: seq<string>)
    ensures Front(ScanArgs(name, text, opts)) == Front(ScanArgs(name, [], opts))
  {
  }

  lemma {:induction false} ZeroText(gs: seq<Pages>, g: nat, i: nat)
    requires StableMasters(gs) && At(gs, g, i)
    ensures Atol(TextAt(gs, g, i)) == 0 ==> TextAt(gs, g, i) == Signed(CursorAt(gs, g, i))
  {
    hide Atol, Signed;
    var c := CursorAt(gs, g, i);
    PackingRoundTrip(c, g);
    AtolOfPrinted(Packed(c, g), "");
    assert Signed(Packed(c, g)) + "" == Signed(Packed(c, g));
  }

  /** The bytes are a reply with this cursor and these elements. */
  predicate ReplyHolds(bytes: string, text: string, elems: seq<Reply>) {
    bytes == Encode(Array([Bulk(text), Array(elems)]))
  }

  /** The bytes are those of the answer. */
  predicate Gets(a: Answer, bytes: string, page: Visit -> seq<Reply>) {
    match a
    case Invalid => false
    case ScanEnd => bytes == SCAN_END
    case Page(h, c, next) => ReplyHolds(bytes, next, page(Visit(h, c)))
  }

  /** The client gets the elements of the page that is next, under the cursor that `Scan` gives. */
  lemma {:induction false} ClientGetsPage(gs: seq<Pages>, serve: Servers, places: Places, page: Visit -> seq<Reply>,
          name: string, opts: seq<string>, g: nat, i: nat)
    requires StableMasters(gs) && At(gs, g, i) && NameFits(name, opts, places) && Serve(gs, serve, page, name, opts)
    ensures Gets(Scan(gs, TextAt(gs, g, i)), ProxyScan(gs, serve, places, ScanArgs(name, TextAt(gs, g, i), opts)), page)
  {
    hide AdjustReply, ToServer, EncodeCommand, Encode, Atol, Packed, Signed, NextCursor, After, NameFits, Stable;
    hide CursorIn, GroupIn;
    ReadBack(gs, g, i);
    ServerIsAsked(gs, g, i, name, opts, places);
    var c, m := CursorAt(gs, g, i), FirstMaster(gs, g);
    if m.Some? {
      var h := m.value;
      assert ServesAt(gs, serve, page, name, opts, h, c);
      var reply := serve(h, EncodeCommand(ScanArgs(name, Signed(c), opts)));
      ReplyOnlyChangesCursor(After(gs[h].value, c), page(Visit(h, c)), h, h + 1 < |gs|, places(reply));
      assert ReplyHolds(Encode(ScanReply(NextCursor(After(gs[h].value, c), h, h + 1 < |gs|), page(Visit(h, c)))),
                        Signed(NextCursor(After(gs[h].value, c), h, h + 1 < |gs|)), page(Visit(h, c)));
    }
  }

  /** How a client reads the cursor of a reply, and the bytes of the list behind it. */
  function ReadReply(bytes: string): (r: (string, string)) {
    match Find(bytes, 5, '\n')
    case None => ([], [])
    case Some(p) =>
      match Find(bytes, p + 1, '\r')
      case None => ([], [])
      case Some(e) => (bytes[p + 1..e], Behind(bytes, e + 2))
  }

  lemma {:induction false} ReplyIsRead(bytes: string, text: string, elems: seq<Reply>)
    requires ReplyHolds(bytes, text, elems) && '\r' !in text
    ensures ReadReply(bytes) == (text, Encode(Array(elems)))
  {
    hide Find, Decimal, Encode;
    var l, list := Decimal(|text|), Encode(Array(elems));
    BulkThenList(text, elems);
    assert bytes == "*2\r\n$" + l + CRLF + text + CRLF + list;
    DigitsAreNot(l, '\n');
    assert bytes[5..] == (l + "\r") + ['\n'] + (text + CRLF + list);
    FindIs(bytes, 5, l + "\r", '\n', text + CRLF + list);
    var p := 6 + |l|;
    assert bytes[p + 1..] == text + ['\r'] + ("\n" + list);
    FindIs(bytes, p + 1, text, '\r', "\n" + list);
    var e := p + 1 + |text|;
    assert bytes[p + 1..e] == text;
    assert Find(bytes, 5, '\n') == Some(p) && Find(bytes, p + 1, '\r') == Some(e);
    assert bytes == ("*2\r\n$" + l + CRLF + text + CRLF) + list;
    assert Behind(bytes, e + 2) == list;
  }

  lemma {:induction false} BulkThenList(text: string, elems: seq<Reply>)
    ensures Encode(Array([Bulk(text), Array(elems)])) == "*2\r\n$" + Decimal(|text|) + CRLF + text + CRLF + Encode(Array(elems))
  {
    TwoIsOneDigit();
    hide Decimal;
    var b, a := Bulk(text), Array(elems);
    assert [b, a][1..] == [a] && [a][1..] == [];
    assert EncodeAll([a]) == Encode(a) + EncodeAll([a][1..]) == Encode(a);
    assert EncodeAll([b, a]) == Encode(b) + EncodeAll([b, a][1..]);
    assert "*" + "2" + CRLF == "*2\r\n";
  }

  lemma {:induction false} TwoIsOneDigit()
    ensures Decimal(2) == "2"
  {
  }

  /** The lists of the pages, as their bytes. */
  function PageBytes(vs: seq<Visit>, page: Visit -> seq<Reply>): seq<string> {
    seq(|vs|, k requires 0 <= k < |vs| => Encode(Array(page(vs[k]))))
  }

  const EMPTY_LIST := "*0\r\n"

  lemma {:induction false} EndIsRead()
    ensures ReplyHolds(SCAN_END, "0", []) && Encode(Array([])) == EMPTY_LIST
  {
    assert Decimal(0) == "0" && Decimal(1) == "1" && Decimal(2) == "2";
    BulkThenList("0", []);
  }

  lemma {:induction false} AnswerIsRead(gs: seq<Pages>, text: string, bytes: string, page: Visit -> seq<Reply>)
    requires |gs| <= GROUPS && Gets(Scan(gs, text), bytes, page)
    ensures var a := Scan(gs, text);
            ReadReply(bytes) == if a.Page? then (a.next, Encode(Array(page(Visit(a.g, a.c))))) else ("0", EMPTY_LIST)
  {
    hide ReadReply, Encode, Atol, Packed, Signed, NextCursor, After, CursorIn, GroupIn, ReplyHolds;
    var a := Scan(gs, text);
    if a.Page? {
      SignedIsPlain(NextCursor(After(gs[a.g].value, a.c), a.g, a.g + 1 < |gs|), '\r');
      ReplyIsRead(bytes, a.next, page(Visit(a.g, a.c)));
    } else {
      EndIsRead();
      ReplyIsRead(bytes, "0", []);
    }
  }

  lemma {:induction false} PageBytesSnoc(vs: seq<Visit>, v: Visit, page: Visit -> seq<Reply>)
    ensures PageBytes(vs + [v], page) == PageBytes(vs, page) + [Encode(Array(page(v)))]
  {
    hide Encode;
  }

  /** The client and its servers speak in bytes, and the proxy between them changes nothing but the cursor: with
      masters that stay, the client gets the lists of all pages of all groups once, in order, and an empty list
      behind them exactly if the last group has no master. */
  method FullScanBytes(gs: seq<Pages>, serve: Servers, places: Places, name: string, opts: seq<string>,
                       ghost page: Visit -> seq<Reply>)
    returns (pages: seq<string>)
    requires StableMasters(gs) && NameFits(name, opts, places) && Serve(gs, serve, page, name, opts)
    ensures pages == PageBytes(AllPages(gs, 0), page) + if gs[|gs| - 1].Some? then [] else [EMPTY_LIST]
  {
    hide Scan, TextAt, Rest, At, StableMasters, AllPages, ProxyScan, Serve, NameFits, Encode, ReadReply;
    pages := [];
    var text := "0";
    ghost var g: nat, i: nat := 0, 0;
    ghost var visits := [];
    ScanStarts(gs);
    var going := true;
    while going
      invariant going ==>
                  At(gs, g, i) && text == TextAt(gs, g, i) && visits + Rest(gs, g, i) == AllPages(gs, 0)
                  && pages == PageBytes(visits, page)
      invariant !going ==>
                  pages == PageBytes(AllPages(gs, 0), page) + if gs[|gs| - 1].Some? then [] else [EMPTY_LIST]
      decreases going, if going then |Rest(gs, g, i)| else 0
    {
      ghost var h, j := ScanStep(gs, g, i);
      ClientGetsPage(gs, serve, places, page, name, opts, g, i);
      ghost var a := Scan(gs, text);
      var bytes := ProxyScan(gs, serve, places, ScanArgs(name, text, opts));
      AnswerIsRead(gs, text, bytes, page);
      var (next, list) := ReadReply(bytes);
      pages := pages + [list];
      if a.Page? {
        ghost var v := Visit(a.g, a.c);
        PageBytesSnoc(visits, v, page);
        if next != "0" { assert visits + ([v] + Rest(gs, h, j)) == (visits + [v]) + Rest(gs, h, j); }
        visits := visits + [v];
      } else {
        assert visits + [] == visits;
      }
      going := next != "0";
      text, g, i := next, h, j;
    }
  }
}
